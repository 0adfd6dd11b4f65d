# diffator: a verified model of the recursive content comparator

diffator compares two token sequences (`Content`) and returns a similarity between them. It
also reports a left/right diff to a `DiffEventsHandler`. The comparison is a divide-and-conquer
over contiguous runs:
- find the largest run of equal tokens shared by the two current ranges (the *pivot*);
- add its length over the longer range to the similarity;
- recurse into the parts before and after it, weighting each part's similarity by the larger
  of the shares that part takes of its range.

Ranges that share no run, or whose run is shorter than `minBlockSize`, are reported as
different and add nothing.

Three interchangeable locators find the pivot:
- *QuadMem*: a dense `(|A|+1) x (|B|+1)` table of common-suffix lengths;
- *LowMem*: two rolling rows recomputed for every query;
- *Hash*: a sparse table with one insertion-ordered map per row.

All three scan the cells row by row and keep the first strictly longer run they meet.

The model is organised as follows:

| module | contents |
|---|---|
| `Ranges`, `Overlaps`, `Contents` | The mutable range, overlap and content objects of the source, as classes, with their iterators. |
| `DiffEvents` | The handler, as a recorder that appends every callback to a trace. |
| `Runs` | The shared specification of the locators: the table recurrence `RunEndingAt`, the run clipped to the queried rectangle, and the row-major scan `LargestRun`. It proves that `LargestRun` is a longest common run, and that it is the unique first maximum. |
| `QuadMem`, `LowMem`, `Hash` | The three context classes and their `findBiggestOverlap`, as imperative methods over arrays and sequences. Each is proved to leave exactly `LargestRun` in the overlap. |
| `Recursion` | What the recursion computes, as functions: `Similarity` and the event `Transcript`. Properties of both are proved here. |
| `Engine` | `ContentsComparatorImpl`: the recursive method, proved to return `Similarity` and to report `Transcript`, whichever locator it uses. |
| `Comparator` | The `ContentComparator` front end and the size guard of `compareWithExpectation`. |
| `Scenarios` | Small worked inputs that fix the arithmetic and exhibit the two findings below. |

Similarities are `real`s. The handler receives events; the model records each event's range
value.

The model follows the code where the code and its own comments part ways:
- The class comment at ContentComparator.java:22-23 promises a similarity between 0.0 and 1.0.
  The model proves the lower bound only (see Left out).
- The comment at ContentComparator.java:92-93 promises that `compareWithExpectation` skips the
  comparison only when the expectation "cannot be reached". The size ratio it tests is not an
  upper bound on the similarity, so it can skip a reachable goal (see Findings).
- The COMMON_PART events cover the range from the start of the current range to the end of the
  pivot, not the pivot alone (ContentsComparatorImpl.java:166-173). The only consumer in the
  repository, SimpleHtmlDiffWriter.java:83-91, prints the left COMMON range, so it prints the
  before part a second time (see Findings).
- Two identical *empty* contents give 0, not 1: an empty range ends the recursion with 0.
  `Engine.EmptyStep` states this, and `Recursion.IdenticalRanges` states 1 only for non-empty ranges.

## Model

Source paths are under `src/main/java/cz/nalezen/diffator/`, written out in full below.

| member | source | states |
|---|---|---|
| Ranges.Enumerate | src/main/java/cz/nalezen/diffator/utils/IntRange.java:32-55 | The indices an iteration over a range yields: as many as the range is long, each inside the range. |
| Ranges.IntRange.constructor | src/main/java/cz/nalezen/diffator/utils/IntRange.java:66-68 | A range built from `begin <= end` holds exactly `[begin, end)`. |
| Ranges.IntRange.Empty | src/main/java/cz/nalezen/diffator/utils/IntRange.java:73-75 | The no-argument constructor gives the cleaned range `[0, 0)` of length 0. |
| Ranges.IntRange.Copy | src/main/java/cz/nalezen/diffator/utils/IntRange.java:81-83 | The copy holds the same interval as the original. |
| Ranges.IntRange.Clean | src/main/java/cz/nalezen/diffator/utils/IntRange.java:88-92 | After cleaning, the range is `[0, 0)` with length 0. |
| Ranges.IntRange.Initialize | src/main/java/cz/nalezen/diffator/utils/IntRange.java:99-107 | Succeeds exactly when `begin <= end`, and then holds `[begin, end)`. Otherwise it fails (the source throws) and leaves begin, end and length unchanged. |
| Ranges.IntRange.IsEmpty | src/main/java/cz/nalezen/diffator/utils/IntRange.java:137-139 | `length < 1` holds exactly when begin equals end. |
| Ranges.IntRange.Contains | src/main/java/cz/nalezen/diffator/utils/IntRange.java:146-148 | A range that contains any index is non-empty. |
| Ranges.IntRange.Extend | src/main/java/cz/nalezen/diffator/utils/IntRange.java:154-168 | The range becomes `ExtendedBy(old range, v)` and stays well formed. |
| Ranges.ExtendCovers | src/main/java/cz/nalezen/diffator/utils/IntRange.java:154-168 | After extending by `v`: `v` is inside, everything that was inside still is, an index already inside changes nothing, and the range is non-empty. |
| Ranges.IntRange.Intersects | src/main/java/cz/nalezen/diffator/utils/IntRange.java:176-178 | The end-point test: either range holds the first or last index of the other. When it holds for two non-empty ranges, some index lies in both. |
| Ranges.IntersectsSymmetric | src/main/java/cz/nalezen/diffator/utils/IntRange.java:176-178 | `intersects(a, b) == intersects(b, a)`. |
| Ranges.IntersectsIffSharedIndex | src/main/java/cz/nalezen/diffator/utils/IntRange.java:176-178 | For non-empty ranges, the end-point test holds exactly when some index lies in both ranges. |
| Ranges.IntRange.Iterator | src/main/java/cz/nalezen/diffator/utils/IntRange.java:184-186 | Returns a fresh iterator over this range that has yielded nothing. |
| Ranges.RangeIterator.constructor | src/main/java/cz/nalezen/diffator/utils/IntRange.java:32-35 | A new iterator starts at offset 0 with nothing yielded. |
| Ranges.RangeIterator.HasNext | src/main/java/cz/nalezen/diffator/utils/IntRange.java:37-39 | More indices remain exactly while fewer than the range's length have been yielded. |
| Ranges.RangeIterator.Next | src/main/java/cz/nalezen/diffator/utils/IntRange.java:42-48 | Yields `begin + act`, appends it to what was yielded and advances by one. |
| Ranges.RangeIterator.Remove | src/main/java/cz/nalezen/diffator/utils/IntRange.java:51-53 | Always fails (unsupported operation). |
| Ranges.DrainedIteratorYieldsRange | src/main/java/cz/nalezen/diffator/utils/IntRange.java:32-55 | A drained iterator has yielded `begin, begin + 1, ..., end - 1` in order. |
| Overlaps.Overlap.constructor | src/main/java/cz/nalezen/diffator/utils/Overlap.java:24-28 | A new overlap holds two fresh, distinct, cleaned ranges. |
| Overlaps.Overlap.GetA | src/main/java/cz/nalezen/diffator/utils/Overlap.java:34-36 | Returns the overlap's own left range object, not a copy. |
| Overlaps.Overlap.GetB | src/main/java/cz/nalezen/diffator/utils/Overlap.java:42-44 | Returns the overlap's own right range object, not a copy. |
| Overlaps.Overlap.Clean | src/main/java/cz/nalezen/diffator/utils/Overlap.java:49-52 | Both sides become the cleaned range `[0, 0)`. |
| Overlaps.ReinitialiseThroughGetter | src/main/java/cz/nalezen/diffator/utils/Overlap.java:34-36 | Initialising the range returned by `getA()` changes the overlap's left side and leaves its right side as it was. This is the aliasing the locators rely on. |
| Contents.Content.constructor | src/main/java/cz/nalezen/diffator/Content.java:39-41 | A content holds the given tokens, a fresh range `[0, n)` and no id. |
| Contents.Content.GetRange | src/main/java/cz/nalezen/diffator/Content.java:102-104 | Returns the content's own range object, which spans all its tokens. |
| Contents.Content.SetContentId | src/main/java/cz/nalezen/diffator/Content.java:86-88 | The id read back is the one set. |
| Contents.Content.Equals | src/main/java/cz/nalezen/diffator/Content.java:67-72 | True exactly when the two token sequences are equal element by element. |
| Contents.Content.RangeIterator | src/main/java/cz/nalezen/diffator/Content.java:128-135 | Returns a fresh iterator over this content that starts at the range's begin. |
| Contents.ContentIterator.constructor | src/main/java/cz/nalezen/diffator/ContentIterator.java:38-42 | The iterator starts at the range's begin with nothing produced. |
| Contents.ContentIterator.Next | src/main/java/cz/nalezen/diffator/ContentIterator.java:50-52 | Returns the token at the current index, appends it to what was produced and advances by one. |
| Contents.ContentIterator.Remove | src/main/java/cz/nalezen/diffator/ContentIterator.java:58-60 | Always fails (unsupported operation). |
| Contents.ContentIterator.HasNext | src/main/java/cz/nalezen/diffator/ContentIterator.java:45-47 | More items remain exactly while `actIndex < range.end`, that is, while fewer items than the range holds have been produced. |
| Contents.DrainedIteratorYieldsItems | src/main/java/cz/nalezen/diffator/ContentIterator.java:45-52 | A drained iterator has produced exactly the tokens of its range, in order. |
| DiffEvents.EventRecorder.OnBeforeStart | src/main/java/cz/nalezen/diffator/DiffEventsHandler.java:48-51 | The before-start event is appended to the trace. |
| DiffEvents.EventRecorder.Handle | src/main/java/cz/nalezen/diffator/DiffEventsHandler.java:60-67 | One part event, with its kind, side and range, is appended to the trace. |
| DiffEvents.EventRecorder.OnDone | src/main/java/cz/nalezen/diffator/DiffEventsHandler.java:53-58 | The done event, with the similarity, is appended to the trace. |
| Runs.RunEndingAt | src/main/java/cz/nalezen/diffator/impl/ContentsComparatorQuadMemImplContext.java:39-52 | A table cell never exceeds either prefix length. |
| Runs.RunEndingAtMatches | src/main/java/cz/nalezen/diffator/impl/ContentsComparatorQuadMemImplContext.java:39-52 | The cell's length of tokens ending at `A[i-1]` and `B[j-1]` are equal pairwise. |
| Runs.RunEndingAtLongest | src/main/java/cz/nalezen/diffator/impl/ContentsComparatorQuadMemImplContext.java:39-52 | No longer common suffix of `A[..i]` and `B[..j]` exists: the cell is the longest one. |
| Runs.RunEndingAtExtends | src/main/java/cz/nalezen/diffator/impl/ContentsComparatorHashImplContext.java:56-72 | On equal tokens a cell is its diagonal neighbour plus one, on row and column 1 as well (there the neighbour is 0). Otherwise it is 0. This is the sparse table's rule. |
| Runs.RunEndingAtPositive | src/main/java/cz/nalezen/diffator/impl/ContentsComparatorQuadMemImplContext.java:42-48 | A cell is positive exactly when its two tokens are equal. |
| Runs.ClippedRunIsClippedCell | src/main/java/cz/nalezen/diffator/impl/ContentsComparatorQuadMemImpl.java:40-46 | The run counted inside the queried rectangle equals `min(min(maxLenA, maxLenB), buffer[i][j])`. |
| Runs.ClippedRunIsLongestInside | src/main/java/cz/nalezen/diffator/impl/ContentsComparatorQuadMemImpl.java:40-52 | The clipped run lies inside both ranges, and its tokens match pairwise. |
| Runs.ClippedRunIsLongest | src/main/java/cz/nalezen/diffator/impl/ContentsComparatorQuadMemImpl.java:40-46 | Every common run ending at the cell inside both ranges is at most the clipped run. |
| Runs.StepFirstMax | src/main/java/cz/nalezen/diffator/impl/ContentsComparatorQuadMemImpl.java:46-53 | One cell with strict-`>` replacement keeps the best-so-far the first maximum of the scanned cells. |
| Runs.RowScanFirstMax | src/main/java/cz/nalezen/diffator/impl/ContentsComparatorQuadMemImpl.java:42-54 | Scanning a row in ascending column order keeps the first-maximum property. |
| Runs.TableScanFirstMax | src/main/java/cz/nalezen/diffator/impl/ContentsComparatorQuadMemImpl.java:38-55 | Scanning the rows in ascending order leaves the first maximum of the whole rectangle. |
| Runs.FirstMaxUnique | src/main/java/cz/nalezen/diffator/impl/ContentsComparatorImpl.java:74-83 | Two results that are both the first maximum over the rectangle are equal. So any locators meeting the shared contract agree exactly. |
| Runs.FirstMaxBounds | src/main/java/cz/nalezen/diffator/impl/ContentsComparatorQuadMemImpl.java:46-53 | No cell of the rectangle has a longer clipped run than the first maximum. |
| Runs.LargestRunIsFirstMax | src/main/java/cz/nalezen/diffator/impl/ContentsComparatorImpl.java:74-83 | The scan leaves the first maximum of the clipped runs in the cleaned overlap. |
| Runs.LargestRunIsCommonRun | src/main/java/cz/nalezen/diffator/impl/ContentsComparatorImpl.java:74-83 | A found run lies in both ranges and has the same length on both sides, and its tokens match. When nothing is found, the overlap stays cleaned. |
| Runs.LargestRunIsLongest | src/main/java/cz/nalezen/diffator/impl/ContentsComparatorImpl.java:74-83 | No common contiguous run inside both ranges is longer than the one found. |
| Runs.LargestRunEmptyIffNoEqualPair | src/main/java/cz/nalezen/diffator/impl/ContentsComparatorImpl.java:112-122 | The overlap is empty exactly when no token of the left range equals one of the right range. |
| QuadMem.QuadMemContext.Initialize | src/main/java/cz/nalezen/diffator/impl/ContentsComparatorQuadMemImplContext.java:30-33 | The context holds a fresh `(|A|+1) x (|B|+1)` buffer whose every cell is `RunEndingAt(A, B, i, j)`. |
| QuadMem.QuadMemContext.CalculateSubstringsLength | src/main/java/cz/nalezen/diffator/impl/ContentsComparatorQuadMemImplContext.java:39-52 | Starting from a zeroed buffer, it fills every cell with `RunEndingAt`. |
| QuadMem.FindBiggestOverlap | src/main/java/cz/nalezen/diffator/impl/ContentsComparatorQuadMemImpl.java:35-56 | The overlap becomes the row-major, strict-`>` scan of the clipped cells (`LargestRun` from a cleaned overlap). |
| LowMem.LowMemContext.Initialize | src/main/java/cz/nalezen/diffator/impl/ContentsComparatorLowMemImplContext.java:32-34 | Two fresh rows of width `|B|`, and row 0 is active. |
| LowMem.LowMemContext.OtherBufferIndex | src/main/java/cz/nalezen/diffator/impl/ContentsComparatorLowMemImplContext.java:48-50 | `(active + 1) % 2` is 0 or 1 and differs from the active index. |
| LowMem.LowMemContext.GetActiveBuffer | src/main/java/cz/nalezen/diffator/impl/ContentsComparatorLowMemImplContext.java:36-38 | One of the two rows, of width `|B|`. |
| LowMem.LowMemContext.GetInactiveBuffer | src/main/java/cz/nalezen/diffator/impl/ContentsComparatorLowMemImplContext.java:40-42 | The other row, of width `|B|`, distinct from the active one. |
| LowMem.LowMemContext.SwapBuffers | src/main/java/cz/nalezen/diffator/impl/ContentsComparatorLowMemImplContext.java:44-46 | The active and inactive rows exchange roles. |
| LowMem.FindBiggestOverlap | src/main/java/cz/nalezen/diffator/impl/ContentsComparatorLowMemImpl.java:38-69 | Recomputing the clipped runs row by row in two rolling rows leaves exactly `LargestRun` in the overlap. |
| LowMem.ScanRow | src/main/java/cz/nalezen/diffator/impl/ContentsComparatorLowMemImpl.java:43-65 | One row fills the inactive buffer with that row's clipped runs, and advances the scan by `RowScan`. |
| LowMem.ScanCell | src/main/java/cz/nalezen/diffator/impl/ContentsComparatorLowMemImpl.java:44-64 | One cell stores its clipped run (`cost`), computed from the active row, and advances the scan by one `Step`. |
| Hash.GetAppend | src/main/java/cz/nalezen/diffator/impl/ContentsComparatorHashImplContext.java:64-66 | Looking up a key after an append finds the earlier entry if there is one, otherwise the appended one. |
| Hash.Put | src/main/java/cz/nalezen/diffator/impl/ContentsComparatorHashImplContext.java:60-72 | After `put`, the key maps to the value. A new key goes at the end of the insertion order. |
| Hash.PutKeepsOtherKeys | src/main/java/cz/nalezen/diffator/impl/ContentsComparatorHashImplContext.java:60-72 | `put` leaves every other key's value unchanged. |
| Hash.RowEntriesAreCells | src/main/java/cz/nalezen/diffator/impl/ContentsComparatorHashImplContext.java:53-77 | Every stored entry of row `i` is a positive table cell `(j, RunEndingAt(i, j))`. |
| Hash.RowEntriesAscending | src/main/java/cz/nalezen/diffator/impl/ContentsComparatorHashImplContext.java:54-72 | A row's keys are in strictly ascending insertion order. The `break` of the search relies on this. |
| Hash.GetRowEntries | src/main/java/cz/nalezen/diffator/impl/ContentsComparatorHashImplContext.java:53-77 | Row `i` maps `j` to the cell exactly when the cell is positive, and otherwise has no entry. |
| Hash.DiagonalLookup | src/main/java/cz/nalezen/diffator/impl/ContentsComparatorHashImplContext.java:64-72 | `rowBef.get(j-1)`, with null read as 0, plus 1 is the cell `RunEndingAt(i, j)`. |
| Hash.PutExtendsRow | src/main/java/cz/nalezen/diffator/impl/ContentsComparatorHashImplContext.java:58-72 | Putting the cell for column `j` extends row `i` from columns `< j` to columns `<= j`. |
| Hash.HashContext.Initialize | src/main/java/cz/nalezen/diffator/impl/ContentsComparatorHashImplContext.java:33-43 | `|A| + 1` rows, each holding exactly the positive cells of its row. |
| Hash.HashContext.CalculateSubstringsLength | src/main/java/cz/nalezen/diffator/impl/ContentsComparatorHashImplContext.java:53-77 | Starting from empty rows, it fills every row with its positive cells. |
| Hash.HashContext.FillRow | src/main/java/cz/nalezen/diffator/impl/ContentsComparatorHashImplContext.java:55-75 | Row `i` gets its positive cells, computed from row `i - 1`. Every other row is unchanged. |
| Hash.EntryScanIgnoresTail | src/main/java/cz/nalezen/diffator/impl/ContentsComparatorHashImpl.java:51-52 | In an ascending row, breaking at the first key past `rangeB.end` drops nothing the scan would use. |
| Hash.EntryScanIsRowScan | src/main/java/cz/nalezen/diffator/impl/ContentsComparatorHashImpl.java:47-67 | Scanning only a row's stored entries gives the same result as scanning every column of the row. Skipped columns hold 0, which never replaces. |
| Hash.ScanEntries | src/main/java/cz/nalezen/diffator/impl/ContentsComparatorHashImpl.java:47-67 | The loop over one row's entries (`continue` before `rangeB`, `break` after it) computes the entry scan. |
| Hash.FindBiggestOverlap | src/main/java/cz/nalezen/diffator/impl/ContentsComparatorHashImpl.java:38-69 | The sparse search leaves exactly `LargestRun` in the overlap, the same result as the dense search. |
| Recursion.PivotInside | src/main/java/cz/nalezen/diffator/impl/ContentsComparatorImpl.java:124-157 | A dividing pivot has one positive length on both sides and lies inside both ranges. |
| Recursion.PivotSidesAgree | src/main/java/cz/nalezen/diffator/impl/ContentsComparatorImpl.java:124-127 | The two sides of the found overlap always have the same length. |
| Recursion.DividesIffLongRun | src/main/java/cz/nalezen/diffator/impl/ContentsComparatorImpl.java:101-139 | The recursion divides exactly when both ranges are non-empty and share a run of positive length of at least `minBlockSize`. |
| Recursion.PivotShares | src/main/java/cz/nalezen/diffator/impl/ContentsComparatorImpl.java:141-158 | At a dividing pivot, the share the pivot takes of the longer range lies in (0, 1]. The before and after weights each lie in [0, 1), because the pivot is never empty. |
| Recursion.SimilarityNonNegative | src/main/java/cz/nalezen/diffator/ContentComparator.java:22-23 | The similarity is never negative. |
| Recursion.SimilarityMonotoneInMinBlock | src/main/java/cz/nalezen/diffator/impl/ContentsComparatorImpl.java:129-139 | Raising `minBlockSize` never raises the similarity. |
| Recursion.IdenticalRanges | src/main/java/cz/nalezen/diffator/impl/ContentsComparatorImpl.java:98-183 | Equal non-empty token runs have similarity 1 and are reported as one common pair covering both ranges, provided `minBlockSize` is at most their length. |
| Recursion.NoSharedToken | src/main/java/cz/nalezen/diffator/impl/ContentsComparatorImpl.java:112-122 | Non-empty ranges with no equal tokens have similarity 0 and are reported as one different pair. |
| Recursion.DividesPositive | src/main/java/cz/nalezen/diffator/impl/ContentsComparatorImpl.java:141-182 | Whenever the recursion divides at a pivot, the similarity is strictly positive. |
| Recursion.ZeroIffNoSharedToken | src/main/java/cz/nalezen/diffator/ContentComparator.java:22-23 | "0.0 means no match": with `minBlockSize` at most 1, two non-empty ranges have similarity 0 exactly when no token of one equals a token of the other. |
| Recursion.OneTokenBound | src/main/java/cz/nalezen/diffator/impl/ContentsComparatorImpl.java:141-182 | A one-token range against `n` tokens has similarity at most `1/n`. |
| Recursion.BlockLongerThanRange | src/main/java/cz/nalezen/diffator/impl/ContentsComparatorImpl.java:129-139 | A `minBlockSize` above the shorter range's length gives 0 and one different pair, whatever the tokens are. |
| Recursion.CorrectedTranscriptInOrder | src/main/java/cz/nalezen/diffator/impl/ContentsComparatorImpl.java:159-180 | With the common pair covering the pivot alone, each side's reported ranges lie inside its range, in ascending order and without overlap. |
| Scenarios.ThreeOfFourPivot | src/main/java/cz/nalezen/diffator/impl/ContentsComparatorImpl.java:108-110 | For `a b c d` against `a x c d`, the locator finds `c d` at `[2, 4)` on both sides. |
| Scenarios.ThreeOfFourSimilarity | src/main/java/cz/nalezen/diffator/impl/ContentsComparatorImpl.java:141-182 | Any two four-token contents of that shape have similarity 0.75. |
| Scenarios.ABCDAgainstAXCD | src/main/java/cz/nalezen/diffator/impl/ContentsComparatorImpl.java:141-182 | `a b c d` against `a x c d` has similarity 0.75. |
| Scenarios.CommonPairCoversBeforePart | src/main/java/cz/nalezen/diffator/impl/ContentsComparatorImpl.java:166-173 | For `c a` against `d a`, the events are a different pair `[0, 1)` and then a common pair `[0, 2)`. The left side's ranges are not in order: token 0 is reported twice. |
| Scenarios.CorrectedCommonPair | src/main/java/cz/nalezen/diffator/impl/ContentsComparatorImpl.java:166-173 | With the correction, the same input gives a different pair `[0, 1)` and then a common pair `[1, 2)`. |
| Scenarios.SparseMatchesSimilarity | src/main/java/cz/nalezen/diffator/impl/ContentsComparatorImpl.java:141-182 | `t t` against `u u u t u t` has similarity 5/12. |
| Engine.FindBiggestOverlap | src/main/java/cz/nalezen/diffator/impl/ContentsComparatorImpl.java:74-83 | Whichever strategy the context belongs to, the overlap becomes `LargestRun` of the current ranges, and the context stays fit for the contents. |
| Engine.EmptyStep | src/main/java/cz/nalezen/diffator/impl/ContentsComparatorImpl.java:101-104 | An empty range has similarity 0 and reports no event. |
| Engine.UndividedStep | src/main/java/cz/nalezen/diffator/impl/ContentsComparatorImpl.java:112-139 | Ranges that do not divide have similarity 0 and report one different pair of the two ranges. |
| Engine.ContentsComparatorImpl.CreateContext | src/main/java/cz/nalezen/diffator/impl/ContentsComparatorImpl.java:49-50 | A fresh context of the strategy's own kind, initialised for the two contents. |
| Engine.ContentsComparatorImpl.Compare | src/main/java/cz/nalezen/diffator/impl/ContentsComparatorImpl.java:41-66 | Returns the similarity of the two whole contents. A handler sees the before-start event, the transcript, then the done event with the result. |
| Engine.ContentsComparatorImpl.CompareIntervalsRecursively | src/main/java/cz/nalezen/diffator/impl/ContentsComparatorImpl.java:98-183 | Returns `Similarity` of the current ranges and appends their `Transcript` to the handler's trace, for every strategy. |
| Engine.ContentsComparatorImpl.ResolveOverlap | src/main/java/cz/nalezen/diffator/impl/ContentsComparatorImpl.java:112-182 | Given the found pivot, it returns the similarity and reports the transcript: the different pair when it does not divide, the division otherwise. |
| Engine.ContentsComparatorImpl.ReportDifferent | src/main/java/cz/nalezen/diffator/impl/ContentsComparatorImpl.java:116-119 | Appends the left range as DIFFERENT_PART, then the right range. |
| Engine.ContentsComparatorImpl.CompareSide | src/main/java/cz/nalezen/diffator/impl/ContentsComparatorImpl.java:159-164 | The ranges are re-initialised to one part, and that part's similarity and transcript follow. |
| Engine.ContentsComparatorImpl.ReportCommon | src/main/java/cz/nalezen/diffator/impl/ContentsComparatorImpl.java:166-173 | Re-initialises the ranges, then appends them as COMMON_PART, left then right. |
| Engine.ContentsComparatorImpl.DivideAtOverlap | src/main/java/cz/nalezen/diffator/impl/ContentsComparatorImpl.java:141-182 | `sum` is the pivot ratio plus the weighted before and after similarities. The trace gets the before events, the common pair, then the after events. |
| Comparator.BestPossible | src/main/java/cz/nalezen/diffator/ContentComparator.java:97 | Defined exactly when a content is non-empty. It then lies in `[0, 1]` and times the longer length gives the shorter one. |
| Comparator.GuardFiresCases | src/main/java/cz/nalezen/diffator/ContentComparator.java:97-101 | The guard fires exactly when one content is empty, the other is not, and the expectation is positive; or when both are non-empty and the length ratio is below the expectation. |
| Comparator.CorrectedGuardSound | src/main/java/cz/nalezen/diffator/ContentComparator.java:91-101 | Wherever the corrected guard skips, the similarity is below the expectation. |
| Comparator.CorrectedGuardWithinGuard | src/main/java/cz/nalezen/diffator/ContentComparator.java:97-101 | The corrected guard fires only where the guard as written fires, on non-empty input. |
| Comparator.GuardSkipsReachableGoal | src/main/java/cz/nalezen/diffator/ContentComparator.java:91-101 | `t t` against `u u u t u t` at expectation 2/5: the guard fires, yet the similarity is 5/12 >= 2/5. |
| Comparator.Whole | src/main/java/cz/nalezen/diffator/impl/ContentsComparatorImpl.java:45-46 | The range the recursion starts from is in bounds and spans the whole content. |
| Comparator.ContentComparator.constructor | src/main/java/cz/nalezen/diffator/ContentComparator.java:57-59 | The default comparator uses the hash strategy. |
| Comparator.ContentComparator.WithImpl | src/main/java/cz/nalezen/diffator/ContentComparator.java:65-67 | The comparator uses the given implementation. |
| Comparator.ContentComparator.Compare | src/main/java/cz/nalezen/diffator/ContentComparator.java:72-74 | The similarity of the whole contents, with `minBlockSize` 0. |
| Comparator.ContentComparator.CompareWithHandler | src/main/java/cz/nalezen/diffator/ContentComparator.java:79-81 | The same similarity, and the handler sees the whole event sequence. |
| Comparator.ContentComparator.CompareWithMinBlock | src/main/java/cz/nalezen/diffator/ContentComparator.java:87-89 | The similarity and event sequence for the given `minBlockSize`. |
| Comparator.ContentComparator.CompareWithExpectation | src/main/java/cz/nalezen/diffator/ContentComparator.java:95-104 | When the guard fires: 0 and no event. Otherwise the full similarity and event sequence. |
| Comparator.ContentComparator.CorrectedCompareWithExpectation | src/main/java/cz/nalezen/diffator/ContentComparator.java:95-104 | Skips, with 0 and no event, only where the similarity is below the expectation. Otherwise it returns the full comparison. |
| Comparator.ContentComparator.CompareStatic | src/main/java/cz/nalezen/diffator/ContentComparator.java:34-36 | A fresh default comparator's similarity, with `minBlockSize` 0. |
| Comparator.ContentComparator.CompareStaticWithHandler | src/main/java/cz/nalezen/diffator/ContentComparator.java:41-43 | The same, with the handler seeing the whole event sequence. |
| Comparator.ContentComparator.CompareStaticWithMinBlock | src/main/java/cz/nalezen/diffator/ContentComparator.java:48-50 | The same for the given `minBlockSize`. |

## Left out

- Recursion.Similarity: the upper bound of 1 promised at ContentComparator.java:22-23 is left open; only the lower bound 0 is proved (`SimilarityNonNegative`). An induction on the range lengths does not close it: assuming both parts are at most 1 leaves `p/max + w1 + w2`, which can exceed 1 (`PivotShares` bounds each term, not their sum), and even a recurrence over lengths that also uses the pivot being the longest run reaches 49/48 for two 8-token ranges. A proof needs facts about the tokens themselves, such as which runs can start right at the pivot's end on both sides, and that argument is not part of this model. The length ratio `min/max` is not a valid bound either (see Findings). For the same reason the converse of `Recursion.IdenticalRanges` (similarity 1 only for identical ranges) is neither proved nor claimed.
- Comparator.CorrectedGuardFires: skips only when a content is empty. It gives up sound skips that the source's guard makes: `Recursion.OneTokenBound` proves a one-token content against `n` tokens reaches at most `1/n`, so, for example, sizes 1 and 4 at an expectation of 1/2 could be skipped. A general size-only bound would need the open upper bound above.
- Floating point: `double` arithmetic is modelled as exact `real` arithmetic. Rounding is not modelled.
- Comparator.BestPossible: `0 / 0.0` (two empty contents) is NaN in the source. The model returns `None`, and the guard treats it as not firing, as every comparison with NaN is false. A NaN `minExpectation` is not modelled.
- 32-bit `int` overflow of indices and table cells is not modelled; all integers are unbounded.
- Tokens are Java `String`s compared with `equals`. They are modelled as `seq<char>` compared by value.
- Contents.Content: the token array is held immutable. `getItems` hands out the array itself, so a caller could change it; that aliasing is not modelled. `getItems`, `getItem` and `length` are plain reads of the tokens.
- Content constructed from a `List<String>` (Content.java:47-52) is the same as the array constructor with the list's elements; only the array form is modelled.
- DiffEvents.EventRecorder: the handler interface is modelled by one recorder that appends every callback to a trace. The source hands the handler the live, reused `IntRange` object and the `Content`; the model records the range's value at the time of the call.
- `print` methods (IntRange.java:188-190, Content.java:140-162) write to standard output and are not modelled.
- `tools/SimpleHtmlDiffWriter.java` is not part of this model.
- Thread safety (ContentComparator.java:25) is not modelled; the model is sequential.
- Engine: the abstract class with a generic context type and overridden `createContext` / `findBiggestOverlap` is modelled as one class carrying a `Strategy`, with a `Context` datatype dispatching to the three context classes.
- Engine.ContentsComparatorImpl.CompareIntervalsRecursively: the body is split into `ResolveOverlap`, `DivideAtOverlap`, `CompareSide`, `ReportDifferent` and `ReportCommon`. The split keeps the proof small and runs the same statements in the same order. `Hash.HashContext.FillRow` and `LowMem.ScanRow` / `ScanCell` split the loop bodies in the same way.
- The `RuntimeException("Overlap size differs!?")` at ContentsComparatorImpl.java:125-127 is unreachable: `Recursion.PivotSidesAgree` proves the two sides always have one length. The model has no error path there.
- Engine.ContentsComparatorImpl.CompareIntervalsRecursively: the final values of the reused range and overlap objects are not specified.
- Ranges.IntersectsIffSharedIndex is stated for non-empty ranges only. The end-point test also reports an empty range placed inside another as intersecting.
- Ranges.IntRange.constructor: requires `begin <= end`. The source's `IntRange(int, int)` throws through `initialize` when `begin > end` (IntRange.java:65-67, 99-102); that error path is excluded here. Every caller in the model passes ordered bounds.
- Contents.ContentIterator.Next: requires the current index to lie inside the token array. The source's `next()` throws `ArrayIndexOutOfBoundsException` past the end of the array (ContentIterator.java:50-52); that error path is excluded. `ContentIterator`'s constructor and `Content.RangeIterator` likewise require `0 <= range.begin`, which excludes iterating a range with a negative begin, where the source would throw on the first `next()`.
- Ranges.IntRange.Initialize: the exception thrown for `begin > end` is modelled as a `Fail` outcome. The comparator and the locators call it only with `begin <= end`, which their contracts establish, so it always passes there.

## Findings

| source | as written | input that shows it | evidently intended | confidence | as-written member | corrected member |
|---|---|---|---|---|---|---|
| src/main/java/cz/nalezen/diffator/ContentComparator.java:97-101 | `compareWithExpectation` returns 0 when `min(m, n) / max(m, n) < minExpectation`, treating the length ratio as an upper bound on the similarity. | Left `t t`, right `u u u t u t`, minExpectation 2/5: the ratio is 1/3, so 0 is returned, but the similarity is 5/12 >= 2/5. | Skip only when the result cannot reach the expectation. The corrected guard is a sound but conservative choice: it skips only when a content is empty (similarity 0) and the expectation is positive. | not executed | Comparator.GuardSkipsReachableGoal | Comparator.ContentComparator.CorrectedCompareWithExpectation |
| src/main/java/cz/nalezen/diffator/impl/ContentsComparatorImpl.java:166-173 | The COMMON_PART events are reported with the ranges `[rangeA.begin, pivotA.end)` and `[rangeB.begin, pivotB.end)`, which include the before part. | Left `c a`, right `d a`: the events are DIFFERENT `[0, 1)` / `[0, 1)` and then COMMON `[0, 2)` / `[0, 2)`, so token 0 is reported both as different and as common. | COMMON_PART covers exactly the pivot (`[h1aEnd, h2aBegin)`), so each side's reported ranges are disjoint and in order. | not executed | Scenarios.CommonPairCoversBeforePart | Recursion.CorrectedTranscriptInOrder |
