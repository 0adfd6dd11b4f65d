/**
 * Small worked inputs of the recursive comparison (impl/ContentsComparatorImpl.java): they fix
 * the arithmetic of the similarity and exhibit the two discrepancies listed under the README's
 * findings.
 */
module Scenarios {
  import opened Ranges
  import opened Contents
  import opened Runs
  import opened DiffEvents
  import opened Recursion

  /** Tokens equal exactly at the positions `0`, `2` and `3` of both sides, as in `[a, b, c, d]` against `[a, x, c, d]`. */
  predicate ThreeOfFour(A: seq<Token>, B: seq<Token>)
  {
    |A| == 4 && |B| == 4 && forall i, j :: 0 <= i < 4 && 0 <= j < 4 ==> (A[i] == B[j] <==> i == j && i != 1)
  }

  lemma ThreeOfFourPivot(A: seq<Token>, B: seq<Token>)
    requires ThreeOfFour(A, B)
    ensures LargestRun(A, B, Interval(0, 4), Interval(0, 4)) == Scan(2, RangePair(Interval(2, 4), Interval(2, 4)))
  {
    assert A[0] == B[0] && A[2] == B[2] && A[3] == B[3];
    assert A[0] != B[1] && A[0] != B[2] && A[0] != B[3];
    assert A[1] != B[0] && A[1] != B[1] && A[1] != B[2] && A[1] != B[3];
    assert A[2] != B[0] && A[2] != B[1] && A[2] != B[3];
    assert A[3] != B[0] && A[3] != B[1] && A[3] != B[2];
  }

  /** The similarity of dividing ranges once their pivot is known. */
  lemma SimilarityOfPivotPair(A: seq<Token>, B: seq<Token>, ra: Interval, rb: Interval, minBlock: int, pa: Interval, pb: Interval)
    requires InBounds(A, ra) && InBounds(B, rb) && Divides(A, B, ra, rb, minBlock) && Pivot(A, B, ra, rb) == RangePair(pa, pb)
    ensures InBounds(A, Before(ra, pa)) && InBounds(B, Before(rb, pb)) && InBounds(A, After(ra, pa)) && InBounds(B, After(rb, pb))
    ensures Similarity(A, B, ra, rb, minBlock)
         == WeightedSum(Ratio(pa.Length(), Max(ra.Length(), rb.Length())),
              Weight(Before(ra, pa), ra, Before(rb, pb), rb), Similarity(A, B, Before(ra, pa), Before(rb, pb), minBlock),
              Weight(After(ra, pa), ra, After(rb, pb), rb), Similarity(A, B, After(ra, pa), After(rb, pb), minBlock))
  {
    SimilarityAtPivot(A, B, ra, rb, minBlock);
  }

  lemma ThreeOfFourTop(A: seq<Token>, B: seq<Token>)
    requires ThreeOfFour(A, B)
    ensures var r := Interval(0, 4);
      Similarity(A, B, r, r, 0) == WeightedSum(Ratio(2, 4), Weight(Interval(0, 2), r, Interval(0, 2), r), Similarity(A, B, Interval(0, 2), Interval(0, 2), 0),
        Weight(Interval(4, 4), r, Interval(4, 4), r), Similarity(A, B, Interval(4, 4), Interval(4, 4), 0))
  {
    var r, p := Interval(0, 4), Interval(2, 4);
    ThreeOfFourPivot(A, B);
    DividesIffLongRun(A, B, r, r, 0);
    SimilarityOfPivotPair(A, B, r, r, 0, p, p);
  }

  lemma ThreeOfFourBefore(A: seq<Token>, B: seq<Token>)
    requires ThreeOfFour(A, B)
    ensures var r := Interval(0, 2);
      Similarity(A, B, r, r, 0) == WeightedSum(Ratio(1, 2), Weight(Interval(0, 0), r, Interval(0, 0), r), Similarity(A, B, Interval(0, 0), Interval(0, 0), 0),
        Weight(Interval(1, 2), r, Interval(1, 2), r), Similarity(A, B, Interval(1, 2), Interval(1, 2), 0))
  {
    var r, p := Interval(0, 2), Interval(0, 1);
    assert A[0] == B[0] && A[0] != B[1] && A[1] != B[0] && A[1] != B[1];
    assert LargestRun(A, B, r, r) == Scan(1, RangePair(p, p));
    DividesIffLongRun(A, B, r, r, 0);
    SimilarityOfPivotPair(A, B, r, r, 0, p, p);
  }

  lemma ThreeOfFourRemainders(A: seq<Token>, B: seq<Token>)
    requires ThreeOfFour(A, B)
    ensures Similarity(A, B, Interval(1, 2), Interval(1, 2), 0) == 0.0
    ensures Similarity(A, B, Interval(0, 0), Interval(0, 0), 0) == 0.0
    ensures Similarity(A, B, Interval(4, 4), Interval(4, 4), 0) == 0.0
  {
    assert A[1] != B[1];
    assert LargestRun(A, B, Interval(1, 2), Interval(1, 2)).maxLen == 0;
    DividesIffLongRun(A, B, Interval(1, 2), Interval(1, 2), 0);
  }

  /**
   * `[a, b, c, d]` against `[a, x, c, d]`: the pivot `[c, d]` gives 2/4, the part before it
   * (`[a, b]` against `[a, x]`) gives 1/2 with weight 1/2, so the similarity is 3/4.
   */
  lemma ThreeOfFourSimilarity(A: seq<Token>, B: seq<Token>)
    requires ThreeOfFour(A, B)
    ensures Similarity(A, B, Interval(0, 4), Interval(0, 4), 0) == 0.75
  {
    var r, h := Interval(0, 4), Interval(0, 2);
    ThreeOfFourTop(A, B);
    ThreeOfFourBefore(A, B);
    ThreeOfFourRemainders(A, B);
    WeightedSumOfZeros(Ratio(1, 2), Weight(Interval(0, 0), h, Interval(0, 0), h), Weight(Interval(1, 2), h, Interval(1, 2), h));
    assert Weight(h, r, h, r) == 0.5;
    WeightedSumOfZeros(0.5 + 0.5 * 0.5, 0.0, Weight(Interval(4, 4), r, Interval(4, 4), r));
  }

  lemma ABCDAgainstAXCD()
    ensures Similarity(["a", "b", "c", "d"], ["a", "x", "c", "d"], Interval(0, 4), Interval(0, 4), 0) == 0.75
  {
    var A: seq<Token>, B: seq<Token> := ["a", "b", "c", "d"], ["a", "x", "c", "d"];
    assert ThreeOfFour(A, B);
    ThreeOfFourSimilarity(A, B);
  }

  // ----- the common pair of the source's transcript -----

  /** Two tokens a side, only the last ones equal, as in `[c, a]` against `[d, a]`. */
  predicate LastTokenShared(A: seq<Token>, B: seq<Token>)
  {
    |A| == 2 && |B| == 2 && A[1] == B[1] && A[0] != B[0] && A[0] != B[1] && A[1] != B[0]
  }

  lemma TranscriptOfPivotPair(A: seq<Token>, B: seq<Token>, ra: Interval, rb: Interval, minBlock: int, pa: Interval, pb: Interval)
    requires InBounds(A, ra) && InBounds(B, rb) && Divides(A, B, ra, rb, minBlock) && Pivot(A, B, ra, rb) == RangePair(pa, pb)
    ensures InBounds(A, Before(ra, pa)) && InBounds(B, Before(rb, pb)) && InBounds(A, After(ra, pa)) && InBounds(B, After(rb, pb))
    ensures Transcript(A, B, ra, rb, minBlock)
         == Transcript(A, B, Before(ra, pa), Before(rb, pb), minBlock)
            + Common(Interval(ra.begin, pa.end), Interval(rb.begin, pb.end))
            + Transcript(A, B, After(ra, pa), After(rb, pb), minBlock)
    ensures CorrectedTranscript(A, B, ra, rb, minBlock)
         == CorrectedTranscript(A, B, Before(ra, pa), Before(rb, pb), minBlock)
            + Common(pa, pb)
            + CorrectedTranscript(A, B, After(ra, pa), After(rb, pb), minBlock)
  {
    PivotInside(A, B, ra, rb, minBlock);
  }

  lemma LastTokenSharedParts(A: seq<Token>, B: seq<Token>)
    requires LastTokenShared(A, B)
    ensures Transcript(A, B, Interval(0, 1), Interval(0, 1), 0) == Different(Interval(0, 1), Interval(0, 1))
    ensures CorrectedTranscript(A, B, Interval(0, 1), Interval(0, 1), 0) == Different(Interval(0, 1), Interval(0, 1))
    ensures Transcript(A, B, Interval(2, 2), Interval(2, 2), 0) == []
    ensures CorrectedTranscript(A, B, Interval(2, 2), Interval(2, 2), 0) == []
  {
    assert LargestRun(A, B, Interval(0, 1), Interval(0, 1)).maxLen == 0;
    DividesIffLongRun(A, B, Interval(0, 1), Interval(0, 1), 0);
  }

  /** A different pair followed by a common pair over the same two-position ranges. */
  lemma OverlappingLeftRanges()
    ensures var t := Different(Interval(0, 1), Interval(0, 1)) + Common(Interval(0, 2), Interval(0, 2));
      SideRanges(t, Left) == [Interval(0, 1), Interval(0, 2)] && !InOrder(SideRanges(t, Left), Interval(0, 2))
  {
    var d, r := Interval(0, 1), Interval(0, 2);
    SideRangesAppend(Different(d, d), Common(r, r), Left);
    SideRangesOfPair(DifferentPart, d, d);
    SideRangesOfPair(CommonPart, r, r);
    var rs := SideRanges(Different(d, d) + Common(r, r), Left);
    assert rs[0].end > rs[1].begin;
  }

  lemma LastTokenSharedPivot(A: seq<Token>, B: seq<Token>)
    requires LastTokenShared(A, B)
    ensures Divides(A, B, Interval(0, 2), Interval(0, 2), 0)
    ensures Pivot(A, B, Interval(0, 2), Interval(0, 2)) == RangePair(Interval(1, 2), Interval(1, 2))
  {
    var r := Interval(0, 2);
    assert LargestRun(A, B, r, r) == Scan(1, RangePair(Interval(1, 2), Interval(1, 2)));
    DividesIffLongRun(A, B, r, r, 0);
  }

  /**
   * `[c, a]` against `[d, a]`: the pivot is `[a]` at position 1 on both sides and `[c]`
   * against `[d]` is reported as different, but the common pair then reports `[0, 2)` on both
   * sides, so position 0 is reported twice and the left ranges are not in order.
   */
  lemma CommonPairCoversBeforePart(A: seq<Token>, B: seq<Token>)
    requires LastTokenShared(A, B)
    ensures Transcript(A, B, Interval(0, 2), Interval(0, 2), 0)
            == Different(Interval(0, 1), Interval(0, 1)) + Common(Interval(0, 2), Interval(0, 2))
    ensures !InOrder(SideRanges(Transcript(A, B, Interval(0, 2), Interval(0, 2), 0), Left), Interval(0, 2))
  {
    var r, p := Interval(0, 2), Interval(1, 2);
    LastTokenSharedPivot(A, B);
    TranscriptOfPivotPair(A, B, r, r, 0, p, p);
    LastTokenSharedParts(A, B);
    OverlappingLeftRanges();
  }

  /** The same input with the corrected common pair: `[c]`/`[d]` different, then `[a]`/`[a]` common. */
  lemma CorrectedCommonPair(A: seq<Token>, B: seq<Token>)
    requires LastTokenShared(A, B)
    ensures CorrectedTranscript(A, B, Interval(0, 2), Interval(0, 2), 0)
            == Different(Interval(0, 1), Interval(0, 1)) + Common(Interval(1, 2), Interval(1, 2))
  {
    var r, p := Interval(0, 2), Interval(1, 2);
    LastTokenSharedPivot(A, B);
    TranscriptOfPivotPair(A, B, r, r, 0, p, p);
    LastTokenSharedParts(A, B);
  }

  // ----- the size bound of compareWithExpectation -----

  /**
   * Two equal tokens on the left; on the right six tokens of which only positions 3 and 5
   * equal them, as in `[0, 0]` against `[1, 1, 1, 0, 1, 0]`.
   */
  predicate SparseMatches(A: seq<Token>, B: seq<Token>)
  {
    && |A| == 2 && |B| == 6 && A[0] == A[1]
    && B[3] == A[0] && B[5] == A[0]
    && B[0] != A[0] && B[1] != A[0] && B[2] != A[0] && B[4] != A[0]
  }

  lemma SparseMatchesTop(A: seq<Token>, B: seq<Token>)
    requires SparseMatches(A, B)
    ensures var ra, rb := Interval(0, 2), Interval(0, 6);
      Similarity(A, B, ra, rb, 0) == WeightedSum(Ratio(1, 6),
        Weight(Interval(0, 0), ra, Interval(0, 3), rb), Similarity(A, B, Interval(0, 0), Interval(0, 3), 0),
        Weight(Interval(1, 2), ra, Interval(4, 6), rb), Similarity(A, B, Interval(1, 2), Interval(4, 6), 0))
  {
    var ra, rb := Interval(0, 2), Interval(0, 6);
    assert LargestRun(A, B, ra, rb) == Scan(1, RangePair(Interval(0, 1), Interval(3, 4)));
    DividesIffLongRun(A, B, ra, rb, 0);
    SimilarityOfPivotPair(A, B, ra, rb, 0, Interval(0, 1), Interval(3, 4));
  }

  lemma SparseMatchesAfter(A: seq<Token>, B: seq<Token>)
    requires SparseMatches(A, B)
    ensures var ra, rb := Interval(1, 2), Interval(4, 6);
      Similarity(A, B, ra, rb, 0) == WeightedSum(Ratio(1, 2),
        Weight(Interval(1, 1), ra, Interval(4, 5), rb), Similarity(A, B, Interval(1, 1), Interval(4, 5), 0),
        Weight(Interval(2, 2), ra, Interval(6, 6), rb), Similarity(A, B, Interval(2, 2), Interval(6, 6), 0))
  {
    var ra, rb := Interval(1, 2), Interval(4, 6);
    assert LargestRun(A, B, ra, rb) == Scan(1, RangePair(Interval(1, 2), Interval(5, 6)));
    DividesIffLongRun(A, B, ra, rb, 0);
    SimilarityOfPivotPair(A, B, ra, rb, 0, Interval(1, 2), Interval(5, 6));
  }

  /** `[0, 0]` against `[1, 1, 1, 0, 1, 0]`: 1/6 for the first `0`, plus 1/2 of 1/2 for the second. */
  lemma SparseMatchesSimilarity(A: seq<Token>, B: seq<Token>)
    requires SparseMatches(A, B)
    ensures Similarity(A, B, Interval(0, 2), Interval(0, 6), 0) == 5.0 / 12.0
  {
    var ra, rb, ar, br := Interval(0, 2), Interval(0, 6), Interval(1, 2), Interval(4, 6);
    SparseMatchesTop(A, B);
    SparseMatchesAfter(A, B);
    WeightedSumOfZeros(Ratio(1, 2), Weight(Interval(1, 1), ar, Interval(4, 5), br), Weight(Interval(2, 2), ar, Interval(6, 6), br));
    assert Weight(ar, ra, br, rb) == 0.5;
    assert Similarity(A, B, Interval(0, 0), Interval(0, 3), 0) == 0.0;
    WeightedSumOfZeros(Ratio(1, 6) + 0.5 * 0.5, Weight(Interval(0, 0), ra, Interval(0, 3), rb), 0.0);
  }
}
