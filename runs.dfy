/**
 * The common specification of the three run locators: the longest-common-substring table
 * recurrence, the run ending at a cell clipped to the queried rectangle, and the row-major
 * scan with strict-`>` replacement that every locator performs.
 */
module Runs {
  import opened Ranges

  function Min(x: int, y: int): int { if x <= y then x else y }

  function Max(x: int, y: int): int { if x <= y then y else x }

  /** A range that lies within a sequence of tokens. */
  predicate InBounds<T>(s: seq<T>, r: Interval)
  {
    0 <= r.begin <= r.end <= |s|
  }

  /**
   * `runEndingAt(i, j)`: the table recurrence. Row 0 and column 0 are 0; a cell is 0 when
   * `A[i-1] != B[j-1]`, 1 on row or column 1, and one more than its diagonal neighbour otherwise.
   */
  function RunEndingAt<T(==)>(A: seq<T>, B: seq<T>, i: nat, j: nat): (r: nat)
    requires i <= |A| && j <= |B|
    ensures r <= i && r <= j
  {
    if i == 0 || j == 0 || A[i-1] != B[j-1] then 0
    else if i == 1 || j == 1 then 1
    else RunEndingAt(A, B, i - 1, j - 1) + 1
  }

  /** The `r` tokens ending at `A[i-1]` and `B[j-1]` are equal pairwise. */
  lemma {:induction false} RunEndingAtMatches<T>(A: seq<T>, B: seq<T>, i: nat, j: nat)
    requires i <= |A| && j <= |B|
    ensures A[i - RunEndingAt(A, B, i, j)..i] == B[j - RunEndingAt(A, B, i, j)..j]
  {
    var r := RunEndingAt(A, B, i, j);
    if r > 0 && i > 1 && j > 1 {
      RunEndingAtMatches(A, B, i - 1, j - 1);
      assert A[i - r..i] == A[i - r..i - 1] + [A[i - 1]];
      assert B[j - r..j] == B[j - r..j - 1] + [B[j - 1]];
    }
  }

  /** No longer common suffix of `A[..i]` and `B[..j]` exists: the cell is the longest such run. */
  lemma {:induction false} RunEndingAtLongest<T>(A: seq<T>, B: seq<T>, i: nat, j: nat, k: nat)
    requires i <= |A| && j <= |B| && k <= i && k <= j
    requires A[i - k..i] == B[j - k..j]
    ensures k <= RunEndingAt(A, B, i, j)
  {
    if k > 0 {
      assert A[i - 1] == A[i - k..i][k - 1] == B[j - k..j][k - 1] == B[j - 1];
      if k > 1 {
        assert A[i - k..i - 1] == A[i - k..i][..k - 1];
        assert B[j - k..j - 1] == B[j - k..j][..k - 1];
        RunEndingAtLongest(A, B, i - 1, j - 1, k - 1);
      }
    }
  }

  /** On equal tokens a cell extends its diagonal neighbour, on row and column 1 too. */
  lemma RunEndingAtExtends<T>(A: seq<T>, B: seq<T>, i: nat, j: nat)
    requires 1 <= i <= |A| && 1 <= j <= |B|
    ensures RunEndingAt(A, B, i, j) == if A[i-1] == B[j-1] then RunEndingAt(A, B, i - 1, j - 1) + 1 else 0
  {
  }

  /** A positive cell marks equal tokens. */
  lemma RunEndingAtPositive<T>(A: seq<T>, B: seq<T>, i: nat, j: nat)
    requires 1 <= i <= |A| && 1 <= j <= |B|
    ensures RunEndingAt(A, B, i, j) > 0 <==> A[i-1] == B[j-1]
  {
  }

  /** Cell `(i, j)` (ends of a run, 1-based) lies in the rectangle queried by `ra` x `rb`. */
  predicate InRect(ra: Interval, rb: Interval, i: int, j: int)
  {
    ra.begin < i <= ra.end && rb.begin < j <= rb.end
  }

  /**
   * The run ending at cell `(i, j)` counted only inside the queried rectangle: 0 on different
   * tokens, 1 on the rectangle's first row or column, one more than the diagonal neighbour otherwise.
   */
  function ClippedRun<T(==)>(A: seq<T>, B: seq<T>, ra: Interval, rb: Interval, i: int, j: int): nat
    requires InBounds(A, ra) && InBounds(B, rb) && InRect(ra, rb, i, j)
    decreases i
  {
    if A[i-1] != B[j-1] then 0
    else if i == ra.begin + 1 || j == rb.begin + 1 then 1
    else ClippedRun(A, B, ra, rb, i - 1, j - 1) + 1
  }

  /**
   * The clipped run is the table cell clipped to the rectangle,
   * `min(min(i - ra.begin, j - rb.begin), runEndingAt(i, j))`, as the dense locator computes it.
   */
  lemma {:induction false} ClippedRunIsClippedCell<T>(A: seq<T>, B: seq<T>, ra: Interval, rb: Interval, i: int, j: int)
    requires InBounds(A, ra) && InBounds(B, rb) && InRect(ra, rb, i, j)
    ensures ClippedRun(A, B, ra, rb, i, j) == Min(Min(i - ra.begin, j - rb.begin), RunEndingAt(A, B, i, j))
    decreases i
  {
    if A[i-1] == B[j-1] && i != ra.begin + 1 && j != rb.begin + 1 {
      ClippedRunIsClippedCell(A, B, ra, rb, i - 1, j - 1);
    }
  }

  /**
   * The clipped run is the longest common run of tokens that ends at `A[i-1]`, `B[j-1]`
   * and lies inside both ranges.
   */
  lemma ClippedRunIsLongestInside<T>(A: seq<T>, B: seq<T>, ra: Interval, rb: Interval, i: int, j: int)
    requires InBounds(A, ra) && InBounds(B, rb) && InRect(ra, rb, i, j)
    ensures var c := ClippedRun(A, B, ra, rb, i, j);
      ra.begin <= i - c && rb.begin <= j - c && A[i - c..i] == B[j - c..j]
  {
    var r := RunEndingAt(A, B, i, j);
    var c := ClippedRun(A, B, ra, rb, i, j);
    ClippedRunIsClippedCell(A, B, ra, rb, i, j);
    RunEndingAtMatches(A, B, i, j);
    ShorterSuffixMatches(A, B, i, j, r, c);
  }

  /** A common run ending at `A[i-1]`, `B[j-1]` stays common when shortened from the front. */
  lemma ShorterSuffixMatches<T>(A: seq<T>, B: seq<T>, i: int, j: int, r: int, c: int)
    requires 0 <= c <= r <= i <= |A| && r <= j <= |B| && A[i - r..i] == B[j - r..j]
    ensures A[i - c..i] == B[j - c..j]
  {
    assert A[i - c..i] == A[i - r..i][r - c..];
    assert B[j - c..j] == B[j - r..j][r - c..];
  }

  /** Every common run ending at `A[i-1]`, `B[j-1]` inside both ranges is at most the clipped run. */
  lemma ClippedRunIsLongest<T>(A: seq<T>, B: seq<T>, ra: Interval, rb: Interval, i: int, j: int, k: nat)
    requires InBounds(A, ra) && InBounds(B, rb) && InRect(ra, rb, i, j)
    requires ra.begin <= i - k && rb.begin <= j - k && A[i - k..i] == B[j - k..j]
    ensures k <= ClippedRun(A, B, ra, rb, i, j)
  {
    ClippedRunIsClippedCell(A, B, ra, rb, i, j);
    RunEndingAtLongest(A, B, i, j, k);
  }

  /** The maximum length found so far and the overlap written into `res`. */
  datatype Scan = Scan(maxLen: nat, found: RangePair)

  /** The overlap `[i - len, i)` x `[j - len, j)` a locator writes for cell `(i, j)`. */
  function Cell(i: int, j: int, len: int): RangePair
  {
    RangePair(Interval(i - len, i), Interval(j - len, j))
  }

  /** One cell of the scan: a strictly longer clipped run replaces the best one. */
  function Step<T(==)>(A: seq<T>, B: seq<T>, ra: Interval, rb: Interval, acc: Scan, i: int, j: int): Scan
    requires InBounds(A, ra) && InBounds(B, rb) && InRect(ra, rb, i, j)
  {
    var c := ClippedRun(A, B, ra, rb, i, j);
    if c > acc.maxLen then Scan(c, Cell(i, j, c)) else acc
  }

  /** The scan of row `i` over the columns `rb.begin + 1 .. j`, in ascending order. */
  function RowScan<T(==)>(A: seq<T>, B: seq<T>, ra: Interval, rb: Interval, i: int, j: int, acc: Scan): Scan
    requires InBounds(A, ra) && InBounds(B, rb) && ra.begin < i <= ra.end && rb.begin <= j <= rb.end
    decreases j - rb.begin
  {
    if j == rb.begin then acc
    else Step(A, B, ra, rb, RowScan(A, B, ra, rb, i, j - 1, acc), i, j)
  }

  /** The scan of rows `ra.begin + 1 .. i`, in ascending order, each over all its columns. */
  function TableScan<T(==)>(A: seq<T>, B: seq<T>, ra: Interval, rb: Interval, i: int, acc: Scan): Scan
    requires InBounds(A, ra) && InBounds(B, rb) && ra.begin <= i <= ra.end
    decreases i - ra.begin
  {
    if i == ra.begin then acc
    else RowScan(A, B, ra, rb, i, rb.end, TableScan(A, B, ra, rb, i - 1, acc))
  }

  /** The overlap `res` holds after `clean()`. */
  const NoOverlap := RangePair(Cleaned, Cleaned)

  /** What `findBiggestOverlap` leaves in a freshly cleaned `res`, with the length it found. */
  function LargestRun<T(==)>(A: seq<T>, B: seq<T>, ra: Interval, rb: Interval): Scan
    requires InBounds(A, ra) && InBounds(B, rb)
  {
    TableScan(A, B, ra, rb, ra.end, Scan(0, NoOverlap))
  }

  /** Cell `(i1, j1)` comes before `(i2, j2)` in the row-major scan order. */
  predicate Precedes(i1: int, j1: int, i2: int, j2: int)
  {
    i1 < i2 || (i1 == i2 && j1 < j2)
  }

  /**
   * `acc` is the first maximum among the cells scanned up to and including `(ie, je)`:
   * no scanned cell has a longer clipped run, an empty result leaves `init` untouched, and a
   * non-empty one is the overlap of a scanned cell of that length that no earlier cell matches.
   */
  ghost predicate IsFirstMax<T>(A: seq<T>, B: seq<T>, ra: Interval, rb: Interval,
                                    ie: int, je: int, init: RangePair, acc: Scan)
    requires InBounds(A, ra) && InBounds(B, rb)
  {
    && (forall i, j :: InRect(ra, rb, i, j) && !Precedes(ie, je, i, j) ==>
          ClippedRun(A, B, ra, rb, i, j) <= acc.maxLen)
    && (acc.maxLen == 0 ==> acc.found == init)
    && (acc.maxLen > 0 ==>
          var i0, j0 := acc.found.a.end, acc.found.b.end;
          && InRect(ra, rb, i0, j0) && !Precedes(ie, je, i0, j0)
          && acc.found == Cell(i0, j0, acc.maxLen)
          && ClippedRun(A, B, ra, rb, i0, j0) == acc.maxLen
          && forall i, j :: InRect(ra, rb, i, j) && Precedes(i, j, i0, j0) ==>
               ClippedRun(A, B, ra, rb, i, j) < acc.maxLen)
  }

  lemma StepFirstMax<T>(A: seq<T>, B: seq<T>, ra: Interval, rb: Interval, i: int, j: int, init: RangePair, acc: Scan)
    requires InBounds(A, ra) && InBounds(B, rb) && InRect(ra, rb, i, j)
    requires IsFirstMax(A, B, ra, rb, i, j - 1, init, acc)
    ensures IsFirstMax(A, B, ra, rb, i, j, init, Step(A, B, ra, rb, acc, i, j))
  {
  }

  lemma {:induction false} RowScanFirstMax<T>(A: seq<T>, B: seq<T>, ra: Interval, rb: Interval, i: int, j: int,
                                              init: RangePair, acc: Scan)
    requires InBounds(A, ra) && InBounds(B, rb) && ra.begin < i <= ra.end && rb.begin <= j <= rb.end
    requires IsFirstMax(A, B, ra, rb, i, rb.begin, init, acc)
    ensures IsFirstMax(A, B, ra, rb, i, j, init, RowScan(A, B, ra, rb, i, j, acc))
    decreases j - rb.begin
  {
    if j > rb.begin {
      RowScanFirstMax(A, B, ra, rb, i, j - 1, init, acc);
      StepFirstMax(A, B, ra, rb, i, j, init, RowScan(A, B, ra, rb, i, j - 1, acc));
    }
  }

  /** Having scanned all of row `i - 1` is having scanned nothing of row `i`. */
  lemma NextRow<T>(A: seq<T>, B: seq<T>, ra: Interval, rb: Interval, i: int, init: RangePair, acc: Scan)
    requires InBounds(A, ra) && InBounds(B, rb)
    requires IsFirstMax(A, B, ra, rb, i - 1, rb.end, init, acc)
    ensures IsFirstMax(A, B, ra, rb, i, rb.begin, init, acc)
  {
  }

  lemma {:induction false} TableScanFirstMax<T>(A: seq<T>, B: seq<T>, ra: Interval, rb: Interval, i: int, init: RangePair)
    requires InBounds(A, ra) && InBounds(B, rb) && ra.begin <= i <= ra.end
    ensures IsFirstMax(A, B, ra, rb, i, rb.end, init, TableScan(A, B, ra, rb, i, Scan(0, init)))
    decreases i - ra.begin
  {
    if i > ra.begin {
      TableScanFirstMax(A, B, ra, rb, i - 1, init);
      var acc := TableScan(A, B, ra, rb, i - 1, Scan(0, init));
      NextRow(A, B, ra, rb, i, init, acc);
      RowScanFirstMax(A, B, ra, rb, i, rb.end, init, acc);
    }
  }

  /**
   * The first-maximum property determines the scan's result: any two results that have it
   * over the whole rectangle, from the same initial overlap, are equal. So every locator
   * whose result is the first maximum agrees with every other.
   */
  lemma FirstMaxUnique<T>(A: seq<T>, B: seq<T>, ra: Interval, rb: Interval, init: RangePair, x: Scan, y: Scan)
    requires InBounds(A, ra) && InBounds(B, rb)
    requires IsFirstMax(A, B, ra, rb, ra.end, rb.end, init, x)
    requires IsFirstMax(A, B, ra, rb, ra.end, rb.end, init, y)
    ensures x == y
  {
    if x.maxLen > 0 && y.maxLen > 0 {
      var xi, xj := x.found.a.end, x.found.b.end;
      var yi, yj := y.found.a.end, y.found.b.end;
      assert ClippedRun(A, B, ra, rb, xi, xj) <= y.maxLen;
      assert ClippedRun(A, B, ra, rb, yi, yj) <= x.maxLen;
      if Precedes(xi, xj, yi, yj) {
        assert false;
      } else if Precedes(yi, yj, xi, xj) {
        assert false;
      }
    }
  }

  lemma FirstMaxBounds<T>(A: seq<T>, B: seq<T>, ra: Interval, rb: Interval, init: RangePair, acc: Scan, i: int, j: int)
    requires InBounds(A, ra) && InBounds(B, rb) && InRect(ra, rb, i, j)
    requires IsFirstMax(A, B, ra, rb, ra.end, rb.end, init, acc)
    ensures ClippedRun(A, B, ra, rb, i, j) <= acc.maxLen
  {
  }

  /** `LargestRun` is the first maximum of the clipped runs over the whole rectangle. */
  lemma LargestRunIsFirstMax<T>(A: seq<T>, B: seq<T>, ra: Interval, rb: Interval)
    requires InBounds(A, ra) && InBounds(B, rb)
    ensures IsFirstMax(A, B, ra, rb, ra.end, rb.end, NoOverlap, LargestRun(A, B, ra, rb))
  {
    TableScanFirstMax(A, B, ra, rb, ra.end, NoOverlap);
  }

  /**
   * A found run lies inside both ranges, its two ranges have the same length, and the tokens
   * match pairwise along it; when nothing is found the overlap is the cleaned, empty one.
   */
  lemma LargestRunIsCommonRun<T>(A: seq<T>, B: seq<T>, ra: Interval, rb: Interval)
    requires InBounds(A, ra) && InBounds(B, rb)
    ensures var s := LargestRun(A, B, ra, rb);
      && (s.maxLen == 0 ==> s.found == NoOverlap)
      && (s.maxLen > 0 ==>
            && s.found.a.Length() == s.maxLen == s.found.b.Length()
            && ra.begin <= s.found.a.begin && s.found.a.end <= ra.end
            && rb.begin <= s.found.b.begin && s.found.b.end <= rb.end
            && A[s.found.a.begin..s.found.a.end] == B[s.found.b.begin..s.found.b.end])
  {
    var s := LargestRun(A, B, ra, rb);
    LargestRunIsFirstMax(A, B, ra, rb);
    if s.maxLen > 0 {
      ClippedRunIsLongestInside(A, B, ra, rb, s.found.a.end, s.found.b.end);
    }
  }

  /** No common contiguous run inside the rectangle is longer than the one found. */
  lemma LargestRunIsLongest<T>(A: seq<T>, B: seq<T>, ra: Interval, rb: Interval, x: int, y: int, k: nat)
    requires InBounds(A, ra) && InBounds(B, rb)
    requires ra.begin <= x && x + k <= ra.end && rb.begin <= y && y + k <= rb.end
    requires A[x..x + k] == B[y..y + k]
    ensures k <= LargestRun(A, B, ra, rb).maxLen
  {
    if k > 0 {
      LargestRunIsFirstMax(A, B, ra, rb);
      ClippedRunIsLongest(A, B, ra, rb, x + k, y + k, k);
      FirstMaxBounds(A, B, ra, rb, NoOverlap, LargestRun(A, B, ra, rb), x + k, y + k);
    }
  }

  /** Nothing is found exactly when no token of `A` in `ra` equals a token of `B` in `rb`. */
  lemma LargestRunEmptyIffNoEqualPair<T>(A: seq<T>, B: seq<T>, ra: Interval, rb: Interval)
    requires InBounds(A, ra) && InBounds(B, rb)
    ensures LargestRun(A, B, ra, rb).maxLen == 0 <==>
      forall x, y :: ra.begin <= x < ra.end && rb.begin <= y < rb.end ==> A[x] != B[y]
  {
    var s := LargestRun(A, B, ra, rb);
    LargestRunIsFirstMax(A, B, ra, rb);
    if s.maxLen == 0 {
      forall x, y | ra.begin <= x < ra.end && rb.begin <= y < rb.end
        ensures A[x] != B[y]
      {
        if A[x] == B[y] {
          assert A[x..x + 1] == B[y..y + 1];
          LargestRunIsLongest(A, B, ra, rb, x, y, 1);
        }
      }
    } else {
      LargestRunIsCommonRun(A, B, ra, rb);
      var x, y := s.found.a.begin, s.found.b.begin;
      assert A[x] == A[x..s.found.a.end][0] == B[y..s.found.b.end][0] == B[y];
    }
  }
}
