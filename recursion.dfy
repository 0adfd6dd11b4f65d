/**
 * What `compareIntervalsRecursively` (impl/ContentsComparatorImpl.java) computes, as functions of
 * the two token sequences and the two current ranges: the similarity it returns and the events
 * it reports. The largest common run of the current ranges is the pivot; the recursion descends
 * into the parts before and after it.
 */
module Recursion {
  import opened Ranges
  import opened Contents
  import opened Runs
  import opened DiffEvents

  /** `x / (double) y`. */
  function Ratio(x: int, y: int): real
    requires y > 0
  {
    x as real / y as real
  }

  /** `Math.max` on doubles. */
  function RMax(x: real, y: real): real
  {
    if x <= y then y else x
  }

  lemma RatioNonNegative(x: int, y: int)
    requires x >= 0 && y > 0
    ensures Ratio(x, y) >= 0.0
  {
  }

  /** `sum += r; sum += w1 * s1; sum += w2 * s2;` from 0. */
  function WeightedSum(r: real, w1: real, s1: real, w2: real, s2: real): real
  {
    r + w1 * s1 + w2 * s2
  }

  lemma RatioOfEqual(n: int)
    requires n > 0
    ensures Ratio(n, n) == 1.0
  {
  }

  lemma WeightedSumOfZeros(r: real, w1: real, w2: real)
    ensures WeightedSum(r, w1, 0.0, w2, 0.0) == r
  {
  }

  lemma WeightedSumNonNegative(r: real, w1: real, s1: real, w2: real, s2: real)
    requires r >= 0.0 && w1 >= 0.0 && s1 >= 0.0 && w2 >= 0.0 && s2 >= 0.0
    ensures WeightedSum(r, w1, s1, w2, s2) >= 0.0
  {
    assert w1 * s1 >= 0.0;
    assert w2 * s2 >= 0.0;
  }

  lemma WeightedSumPositive(r: real, w1: real, s1: real, w2: real, s2: real)
    requires r > 0.0 && w1 >= 0.0 && s1 >= 0.0 && w2 >= 0.0 && s2 >= 0.0
    ensures WeightedSum(r, w1, s1, w2, s2) > 0.0
  {
    assert w1 * s1 >= 0.0;
    assert w2 * s2 >= 0.0;
  }

  lemma WeightedSumMonotone(r: real, w1: real, s1: real, t1: real, w2: real, s2: real, t2: real)
    requires w1 >= 0.0 && s1 <= t1 && w2 >= 0.0 && s2 <= t2
    ensures WeightedSum(r, w1, s1, w2, s2) <= WeightedSum(r, w1, t1, w2, t2)
  {
    assert w1 * (t1 - s1) >= 0.0;
    assert w2 * (t2 - s2) >= 0.0;
  }

  /** The overlap the locator leaves in a cleaned `Overlap` for the current ranges. */
  function Pivot(A: seq<Token>, B: seq<Token>, ra: Interval, rb: Interval): RangePair
    requires InBounds(A, ra) && InBounds(B, rb)
  {
    LargestRun(A, B, ra, rb).found
  }

  /**
   * The recursion stops with 0 when a range is empty, when the overlap is empty on either side
   * or when it is shorter than `minBlock`; otherwise it divides at the pivot.
   */
  predicate Divides(A: seq<Token>, B: seq<Token>, ra: Interval, rb: Interval, minBlock: int)
    requires InBounds(A, ra) && InBounds(B, rb)
  {
    var p := Pivot(A, B, ra, rb);
    ra.Length() != 0 && rb.Length() != 0
    && p.a.Length() != 0 && p.b.Length() != 0 && p.a.Length() >= minBlock
  }

  /** A dividing pivot has the same positive length on both sides and lies inside both ranges. */
  lemma PivotInside(A: seq<Token>, B: seq<Token>, ra: Interval, rb: Interval, minBlock: int)
    requires InBounds(A, ra) && InBounds(B, rb) && Divides(A, B, ra, rb, minBlock)
    ensures var p := Pivot(A, B, ra, rb);
      && 0 < p.a.Length() == p.b.Length() == LargestRun(A, B, ra, rb).maxLen
      && ra.begin <= p.a.begin && p.a.end <= ra.end
      && rb.begin <= p.b.begin && p.b.end <= rb.end
  {
    LargestRunIsCommonRun(A, B, ra, rb);
  }

  /** The two sides of the overlap the locator leaves always have one length, zero when nothing was found. */
  lemma PivotSidesAgree(A: seq<Token>, B: seq<Token>, ra: Interval, rb: Interval)
    requires InBounds(A, ra) && InBounds(B, rb)
    ensures Pivot(A, B, ra, rb).a.Length() == Pivot(A, B, ra, rb).b.Length()
  {
    LargestRunIsCommonRun(A, B, ra, rb);
  }

  /** The recursion divides exactly when both ranges are non-empty and hold a run of at least `minBlock` tokens. */
  lemma DividesIffLongRun(A: seq<Token>, B: seq<Token>, ra: Interval, rb: Interval, minBlock: int)
    requires InBounds(A, ra) && InBounds(B, rb)
    ensures Divides(A, B, ra, rb, minBlock) <==>
      ra.Length() != 0 && rb.Length() != 0 && 0 < LargestRun(A, B, ra, rb).maxLen && minBlock <= LargestRun(A, B, ra, rb).maxLen
  {
    LargestRunIsCommonRun(A, B, ra, rb);
  }

  /** The range from the start of `r` to the start of the pivot side `p`. */
  function Before(r: Interval, p: Interval): Interval
  {
    Interval(r.begin, p.begin)
  }

  /** The range from the end of the pivot side `p` to the end of `r`. */
  function After(r: Interval, p: Interval): Interval
  {
    Interval(p.end, r.end)
  }

  /** The weight of a pair of sub-ranges: the larger of the shares each takes of its range. */
  function Weight(x: Interval, ra: Interval, y: Interval, rb: Interval): real
    requires ra.Length() > 0 && rb.Length() > 0
  {
    RMax(Ratio(x.Length(), ra.Length()), Ratio(y.Length(), rb.Length()))
  }

  lemma WeightNonNegative(x: Interval, ra: Interval, y: Interval, rb: Interval)
    requires ra.Length() > 0 && rb.Length() > 0 && x.Length() >= 0 && y.Length() >= 0
    ensures Weight(x, ra, y, rb) >= 0.0
  {
    RatioNonNegative(x.Length(), ra.Length());
  }

  /**
   * The similarity of `A[ra]` and `B[rb]`: the pivot's length over the longer range, plus the
   * similarities of the before and after pairs, each scaled by its weight.
   */
  function Similarity(A: seq<Token>, B: seq<Token>, ra: Interval, rb: Interval, minBlock: int): real
    requires InBounds(A, ra) && InBounds(B, rb)
    decreases ra.Length() + rb.Length()
  {
    if !Divides(A, B, ra, rb, minBlock) then 0.0
    else
      PivotInside(A, B, ra, rb, minBlock);
      var p := Pivot(A, B, ra, rb);
      WeightedSum(Ratio(p.a.Length(), Max(ra.Length(), rb.Length())),
        Weight(Before(ra, p.a), ra, Before(rb, p.b), rb), Similarity(A, B, Before(ra, p.a), Before(rb, p.b), minBlock),
        Weight(After(ra, p.a), ra, After(rb, p.b), rb), Similarity(A, B, After(ra, p.a), After(rb, p.b), minBlock))
  }

  /** The similarity of dividing ranges, written with the sub-ranges named. */
  lemma SimilarityAtPivot(A: seq<Token>, B: seq<Token>, ra: Interval, rb: Interval, minBlock: int)
    requires InBounds(A, ra) && InBounds(B, rb) && Divides(A, B, ra, rb, minBlock)
    ensures var p := Pivot(A, B, ra, rb);
      && InBounds(A, Before(ra, p.a)) && InBounds(B, Before(rb, p.b))
      && InBounds(A, After(ra, p.a)) && InBounds(B, After(rb, p.b))
      && Similarity(A, B, ra, rb, minBlock)
         == WeightedSum(Ratio(p.a.Length(), Max(ra.Length(), rb.Length())),
              Weight(Before(ra, p.a), ra, Before(rb, p.b), rb), Similarity(A, B, Before(ra, p.a), Before(rb, p.b), minBlock),
              Weight(After(ra, p.a), ra, After(rb, p.b), rb), Similarity(A, B, After(ra, p.a), After(rb, p.b), minBlock))
  {
    PivotInside(A, B, ra, rb, minBlock);
  }

  lemma RatioBelowOne(x: int, y: int)
    requires 0 <= x < y
    ensures 0.0 <= Ratio(x, y) < 1.0
  {
    assert x as real < y as real;
  }

  lemma RatioAtMostOne(x: int, y: int)
    requires 0 < x <= y
    ensures 0.0 < Ratio(x, y) <= 1.0
  {
    assert x as real <= y as real;
  }

  lemma WeightBelowOne(x: Interval, ra: Interval, y: Interval, rb: Interval)
    requires 0 <= x.Length() < ra.Length() && 0 <= y.Length() < rb.Length()
    ensures 0.0 <= Weight(x, ra, y, rb) < 1.0
  {
    RatioBelowOne(x.Length(), ra.Length());
    RatioBelowOne(y.Length(), rb.Length());
  }

  /**
   * At a dividing pivot the pivot's share of the longer range lies in (0, 1], and each of the
   * before and after weights lies in [0, 1): the pivot is never empty, so no part fills its range.
   */
  lemma PivotShares(A: seq<Token>, B: seq<Token>, ra: Interval, rb: Interval, minBlock: int)
    requires InBounds(A, ra) && InBounds(B, rb) && Divides(A, B, ra, rb, minBlock)
    ensures var p := Pivot(A, B, ra, rb);
      && 0.0 < Ratio(p.a.Length(), Max(ra.Length(), rb.Length())) <= 1.0
      && 0.0 <= Weight(Before(ra, p.a), ra, Before(rb, p.b), rb) < 1.0
      && 0.0 <= Weight(After(ra, p.a), ra, After(rb, p.b), rb) < 1.0
  {
    PivotInside(A, B, ra, rb, minBlock);
    var p := Pivot(A, B, ra, rb);
    RatioAtMostOne(p.a.Length(), Max(ra.Length(), rb.Length()));
    WeightBelowOne(Before(ra, p.a), ra, Before(rb, p.b), rb);
    WeightBelowOne(After(ra, p.a), ra, After(rb, p.b), rb);
  }

  /** The two events reporting a pair of ranges as different. */
  function Different(ra: Interval, rb: Interval): seq<Event>
  {
    [Part(DifferentPart, Left, ra), Part(DifferentPart, Right, rb)]
  }

  /** The two events reporting a pair of ranges as common. */
  function Common(ra: Interval, rb: Interval): seq<Event>
  {
    [Part(CommonPart, Left, ra), Part(CommonPart, Right, rb)]
  }

  /**
   * The events the recursion reports, in order: nothing for an empty range, both ranges as
   * different when it does not divide, and otherwise the before part's events, a common pair,
   * and the after part's events. The common pair runs from the start of the current range to
   * the end of the pivot, so it spans the before part as well.
   */
  function Transcript(A: seq<Token>, B: seq<Token>, ra: Interval, rb: Interval, minBlock: int): seq<Event>
    requires InBounds(A, ra) && InBounds(B, rb)
    decreases ra.Length() + rb.Length()
  {
    if ra.Length() == 0 || rb.Length() == 0 then []
    else if !Divides(A, B, ra, rb, minBlock) then Different(ra, rb)
    else
      PivotInside(A, B, ra, rb, minBlock);
      var p := Pivot(A, B, ra, rb);
      Transcript(A, B, Before(ra, p.a), Before(rb, p.b), minBlock)
      + Common(Interval(ra.begin, p.a.end), Interval(rb.begin, p.b.end))
      + Transcript(A, B, After(ra, p.a), After(rb, p.b), minBlock)
  }

  /** The transcript of dividing ranges, written with the sub-ranges named. */
  lemma TranscriptAtPivot(A: seq<Token>, B: seq<Token>, ra: Interval, rb: Interval, minBlock: int)
    requires InBounds(A, ra) && InBounds(B, rb) && Divides(A, B, ra, rb, minBlock)
    ensures var p := Pivot(A, B, ra, rb);
      && InBounds(A, Before(ra, p.a)) && InBounds(B, Before(rb, p.b))
      && InBounds(A, After(ra, p.a)) && InBounds(B, After(rb, p.b))
      && Transcript(A, B, ra, rb, minBlock)
         == Transcript(A, B, Before(ra, p.a), Before(rb, p.b), minBlock)
            + Common(Interval(ra.begin, p.a.end), Interval(rb.begin, p.b.end))
            + Transcript(A, B, After(ra, p.a), After(rb, p.b), minBlock)
  {
    PivotInside(A, B, ra, rb, minBlock);
  }

  /** The transcript with each common pair covering exactly the pivot. */
  function CorrectedTranscript(A: seq<Token>, B: seq<Token>, ra: Interval, rb: Interval, minBlock: int): seq<Event>
    requires InBounds(A, ra) && InBounds(B, rb)
    decreases ra.Length() + rb.Length()
  {
    if ra.Length() == 0 || rb.Length() == 0 then []
    else if !Divides(A, B, ra, rb, minBlock) then Different(ra, rb)
    else
      PivotInside(A, B, ra, rb, minBlock);
      var p := Pivot(A, B, ra, rb);
      CorrectedTranscript(A, B, Before(ra, p.a), Before(rb, p.b), minBlock)
      + Common(p.a, p.b)
      + CorrectedTranscript(A, B, After(ra, p.a), After(rb, p.b), minBlock)
  }

  /** The corrected transcript of dividing ranges, written with the sub-ranges named. */
  lemma CorrectedTranscriptAtPivot(A: seq<Token>, B: seq<Token>, ra: Interval, rb: Interval, minBlock: int)
    requires InBounds(A, ra) && InBounds(B, rb) && Divides(A, B, ra, rb, minBlock)
    ensures var p := Pivot(A, B, ra, rb);
      && InBounds(A, Before(ra, p.a)) && InBounds(B, Before(rb, p.b))
      && InBounds(A, After(ra, p.a)) && InBounds(B, After(rb, p.b))
      && CorrectedTranscript(A, B, ra, rb, minBlock)
         == CorrectedTranscript(A, B, Before(ra, p.a), Before(rb, p.b), minBlock)
            + Common(p.a, p.b)
            + CorrectedTranscript(A, B, After(ra, p.a), After(rb, p.b), minBlock)
  {
    PivotInside(A, B, ra, rb, minBlock);
  }

  // ----- Similarity -----

  /** The similarity is never negative. */
  lemma {:induction false} SimilarityNonNegative(A: seq<Token>, B: seq<Token>, ra: Interval, rb: Interval, minBlock: int)
    requires InBounds(A, ra) && InBounds(B, rb)
    ensures Similarity(A, B, ra, rb, minBlock) >= 0.0
    decreases ra.Length() + rb.Length()
  {
    if Divides(A, B, ra, rb, minBlock) {
      PivotInside(A, B, ra, rb, minBlock);
      SimilarityAtPivot(A, B, ra, rb, minBlock);
      var p := Pivot(A, B, ra, rb);
      var bra, brb, ara, arb := Before(ra, p.a), Before(rb, p.b), After(ra, p.a), After(rb, p.b);
      SimilarityNonNegative(A, B, bra, brb, minBlock);
      SimilarityNonNegative(A, B, ara, arb, minBlock);
      RatioNonNegative(p.a.Length(), Max(ra.Length(), rb.Length()));
      WeightNonNegative(bra, ra, brb, rb);
      WeightNonNegative(ara, ra, arb, rb);
      WeightedSumNonNegative(Ratio(p.a.Length(), Max(ra.Length(), rb.Length())),
        Weight(bra, ra, brb, rb), Similarity(A, B, bra, brb, minBlock),
        Weight(ara, ra, arb, rb), Similarity(A, B, ara, arb, minBlock));
    }
  }

  /** Raising `minBlock` never raises the similarity: the pivots do not depend on it. */
  lemma {:induction false} SimilarityMonotoneInMinBlock(A: seq<Token>, B: seq<Token>, ra: Interval, rb: Interval,
                                                        small: int, large: int)
    requires InBounds(A, ra) && InBounds(B, rb) && small <= large
    ensures Similarity(A, B, ra, rb, large) <= Similarity(A, B, ra, rb, small)
    decreases ra.Length() + rb.Length()
  {
    if Divides(A, B, ra, rb, large) {
      PivotInside(A, B, ra, rb, large);
      var p := Pivot(A, B, ra, rb);
      var bra, brb, ara, arb := Before(ra, p.a), Before(rb, p.b), After(ra, p.a), After(rb, p.b);
      assert Divides(A, B, ra, rb, small);
      SimilarityAtPivot(A, B, ra, rb, small);
      SimilarityAtPivot(A, B, ra, rb, large);
      SimilarityMonotoneInMinBlock(A, B, bra, brb, small, large);
      SimilarityMonotoneInMinBlock(A, B, ara, arb, small, large);
      WeightNonNegative(bra, ra, brb, rb);
      WeightNonNegative(ara, ra, arb, rb);
      WeightedSumMonotone(Ratio(p.a.Length(), Max(ra.Length(), rb.Length())),
        Weight(bra, ra, brb, rb), Similarity(A, B, bra, brb, large), Similarity(A, B, bra, brb, small),
        Weight(ara, ra, arb, rb), Similarity(A, B, ara, arb, large), Similarity(A, B, ara, arb, small));
    } else {
      SimilarityNonNegative(A, B, ra, rb, small);
    }
  }

  /**
   * Equal token runs of positive length are similar with 1, reported as a single common pair
   * covering both ranges, as long as `minBlock` does not exceed their length.
   */
  lemma IdenticalRanges(A: seq<Token>, B: seq<Token>, ra: Interval, rb: Interval, minBlock: int)
    requires InBounds(A, ra) && InBounds(B, rb) && ra.Length() > 0
    requires A[ra.begin..ra.end] == B[rb.begin..rb.end] && minBlock <= ra.Length()
    ensures Similarity(A, B, ra, rb, minBlock) == 1.0
    ensures Transcript(A, B, ra, rb, minBlock) == Common(ra, rb)
    ensures CorrectedTranscript(A, B, ra, rb, minBlock) == Common(ra, rb)
  {
    var s := LargestRun(A, B, ra, rb);
    LargestRunIsCommonRun(A, B, ra, rb);
    LargestRunIsLongest(A, B, ra, rb, ra.begin, rb.begin, ra.Length());
    var p := s.found;
    assert p == RangePair(ra, rb);
    DividesIffLongRun(A, B, ra, rb, minBlock);
    SimilarityAtPivot(A, B, ra, rb, minBlock);
    assert Before(ra, p.a).Length() == 0 && After(ra, p.a).Length() == 0;
    assert Max(ra.Length(), rb.Length()) == p.a.Length();
    RatioOfEqual(p.a.Length());
    WeightedSumOfZeros(1.0, Weight(Before(ra, p.a), ra, Before(rb, p.b), rb), Weight(After(ra, p.a), ra, After(rb, p.b), rb));
  }

  /** Ranges sharing no token are similar with 0 and reported as one different pair. */
  lemma NoSharedToken(A: seq<Token>, B: seq<Token>, ra: Interval, rb: Interval, minBlock: int)
    requires InBounds(A, ra) && InBounds(B, rb) && ra.Length() > 0 && rb.Length() > 0
    requires forall x, y :: ra.begin <= x < ra.end && rb.begin <= y < rb.end ==> A[x] != B[y]
    ensures Similarity(A, B, ra, rb, minBlock) == 0.0
    ensures Transcript(A, B, ra, rb, minBlock) == Different(ra, rb)
    ensures CorrectedTranscript(A, B, ra, rb, minBlock) == Different(ra, rb)
  {
    LargestRunEmptyIffNoEqualPair(A, B, ra, rb);
    DividesIffLongRun(A, B, ra, rb, minBlock);
  }

  /** Whenever the recursion divides, the similarity is positive: the pivot alone adds a positive share. */
  lemma DividesPositive(A: seq<Token>, B: seq<Token>, ra: Interval, rb: Interval, minBlock: int)
    requires InBounds(A, ra) && InBounds(B, rb) && Divides(A, B, ra, rb, minBlock)
    ensures Similarity(A, B, ra, rb, minBlock) > 0.0
  {
    SimilarityAtPivot(A, B, ra, rb, minBlock);
    PivotShares(A, B, ra, rb, minBlock);
    var p := Pivot(A, B, ra, rb);
    var bra, brb, ara, arb := Before(ra, p.a), Before(rb, p.b), After(ra, p.a), After(rb, p.b);
    SimilarityNonNegative(A, B, bra, brb, minBlock);
    SimilarityNonNegative(A, B, ara, arb, minBlock);
    WeightedSumPositive(Ratio(p.a.Length(), Max(ra.Length(), rb.Length())),
      Weight(bra, ra, brb, rb), Similarity(A, B, bra, brb, minBlock),
      Weight(ara, ra, arb, rb), Similarity(A, B, ara, arb, minBlock));
  }

  /**
   * Zero means no match: with `minBlock` at most 1, two non-empty ranges have similarity 0
   * exactly when no token of one equals a token of the other.
   */
  lemma ZeroIffNoSharedToken(A: seq<Token>, B: seq<Token>, ra: Interval, rb: Interval, minBlock: int)
    requires InBounds(A, ra) && InBounds(B, rb) && ra.Length() > 0 && rb.Length() > 0 && minBlock <= 1
    ensures Similarity(A, B, ra, rb, minBlock) == 0.0 <==>
      forall x, y :: ra.begin <= x < ra.end && rb.begin <= y < rb.end ==> A[x] != B[y]
  {
    LargestRunEmptyIffNoEqualPair(A, B, ra, rb);
    DividesIffLongRun(A, B, ra, rb, minBlock);
    if Divides(A, B, ra, rb, minBlock) {
      DividesPositive(A, B, ra, rb, minBlock);
    }
  }

  /**
   * A one-token range against a non-empty range `rb` is similar with at most `1 / |rb|`: the
   * pivot is the single token, and nothing is left on its side to divide further.
   */
  lemma OneTokenBound(A: seq<Token>, B: seq<Token>, ra: Interval, rb: Interval, minBlock: int)
    requires InBounds(A, ra) && InBounds(B, rb) && ra.Length() == 1 && rb.Length() > 0
    ensures Similarity(A, B, ra, rb, minBlock) <= Ratio(1, rb.Length())
  {
    if Divides(A, B, ra, rb, minBlock) {
      SimilarityAtPivot(A, B, ra, rb, minBlock);
      PivotInside(A, B, ra, rb, minBlock);
      var p := Pivot(A, B, ra, rb);
      assert Before(ra, p.a).Length() == 0 && After(ra, p.a).Length() == 0;
      assert Max(ra.Length(), rb.Length()) == rb.Length();
      WeightedSumOfZeros(Ratio(1, rb.Length()),
        Weight(Before(ra, p.a), ra, Before(rb, p.b), rb), Weight(After(ra, p.a), ra, After(rb, p.b), rb));
    } else {
      RatioNonNegative(1, rb.Length());
    }
  }

  /**
   * A `minBlock` longer than the shorter of two non-empty ranges gives 0 and reports both as
   * different, whatever they hold: no run can be that long.
   */
  lemma BlockLongerThanRange(A: seq<Token>, B: seq<Token>, ra: Interval, rb: Interval, minBlock: int)
    requires InBounds(A, ra) && InBounds(B, rb) && ra.Length() > 0 && rb.Length() > 0
    requires minBlock > Min(ra.Length(), rb.Length())
    ensures Similarity(A, B, ra, rb, minBlock) == 0.0
    ensures Transcript(A, B, ra, rb, minBlock) == Different(ra, rb)
  {
    LargestRunIsCommonRun(A, B, ra, rb);
    DividesIffLongRun(A, B, ra, rb, minBlock);
  }

  // ----- Transcripts -----

  /** The ranges of the events of one side, in order. */
  function SideRanges(t: seq<Event>, side: EventSide): seq<Interval>
    decreases |t|
  {
    if |t| == 0 then []
    else SideRanges(t[..|t| - 1], side) + (if t[|t| - 1].Part? && t[|t| - 1].side == side then [t[|t| - 1].range] else [])
  }

  lemma SideRangesOfPair(kind: EventType, x: Interval, y: Interval)
    ensures SideRanges([Part(kind, Left, x), Part(kind, Right, y)], Left) == [x]
    ensures SideRanges([Part(kind, Left, x), Part(kind, Right, y)], Right) == [y]
  {
    var t := [Part(kind, Left, x), Part(kind, Right, y)];
    assert t[..1] == [t[0]];
    assert [t[0]][..0] == [];
    assert SideRanges([t[0]], Left) == [x];
    assert SideRanges([t[0]], Right) == [];
  }

  lemma {:induction false} SideRangesAppend(t: seq<Event>, u: seq<Event>, side: EventSide)
    ensures SideRanges(t + u, side) == SideRanges(t, side) + SideRanges(u, side)
    decreases |u|
  {
    if |u| > 0 {
      assert (t + u)[..|t + u| - 1] == t + u[..|u| - 1];
      SideRangesAppend(t, u[..|u| - 1], side);
    } else {
      assert t + u == t;
    }
  }

  /** Non-empty-or-empty ranges inside `r`, each ending where or before the next begins. */
  predicate InOrder(rs: seq<Interval>, r: Interval)
  {
    && (forall k :: 0 <= k < |rs| ==> r.begin <= rs[k].begin <= rs[k].end <= r.end)
    && (forall k :: 0 <= k < |rs| - 1 ==> rs[k].end <= rs[k + 1].begin)
  }

  lemma InOrderAppend(x: seq<Interval>, y: seq<Interval>, lo: int, mid: int, hi: int)
    requires lo <= mid <= hi && InOrder(x, Interval(lo, mid)) && InOrder(y, Interval(mid, hi))
    ensures InOrder(x + y, Interval(lo, hi))
  {
    forall k | 0 <= k < |x + y|
      ensures lo <= (x + y)[k].begin <= (x + y)[k].end <= hi
    {
      if k < |x| {
        assert (x + y)[k] == x[k];
      } else {
        assert (x + y)[k] == y[k - |x|];
      }
    }
    forall k | 0 <= k < |x + y| - 1
      ensures (x + y)[k].end <= (x + y)[k + 1].begin
    {
      if k == |x| - 1 {
        assert (x + y)[k] == x[k] && (x + y)[k + 1] == y[0];
      }
    }
  }

  /** One side's ranges before a pivot, the pivot, and the ranges after it are in order. */
  lemma InOrderAroundPivot(before: seq<Event>, common: seq<Event>, after: seq<Event>, side: EventSide,
                           r: Interval, pivot: Interval)
    requires r.begin <= pivot.begin <= pivot.end <= r.end
    requires InOrder(SideRanges(before, side), Before(r, pivot))
    requires SideRanges(common, side) == [pivot]
    requires InOrder(SideRanges(after, side), After(r, pivot))
    ensures InOrder(SideRanges(before + common + after, side), r)
  {
    SideRangesAppend(before + common, after, side);
    SideRangesAppend(before, common, side);
    InOrderAppend(SideRanges(before, side), [pivot], r.begin, pivot.begin, pivot.end);
    InOrderAppend(SideRanges(before, side) + [pivot], SideRanges(after, side), r.begin, pivot.end, r.end);
  }

  /**
   * In the corrected transcript each side's ranges lie inside that side's range, in ascending
   * order and without overlap: every token is reported at most once, left to right.
   */
  lemma {:induction false} CorrectedTranscriptInOrder(A: seq<Token>, B: seq<Token>, ra: Interval, rb: Interval,
                                                      minBlock: int)
    requires InBounds(A, ra) && InBounds(B, rb)
    ensures InOrder(SideRanges(CorrectedTranscript(A, B, ra, rb, minBlock), Left), ra)
    ensures InOrder(SideRanges(CorrectedTranscript(A, B, ra, rb, minBlock), Right), rb)
    decreases ra.Length() + rb.Length()
  {
    var t := CorrectedTranscript(A, B, ra, rb, minBlock);
    if ra.Length() == 0 || rb.Length() == 0 {
    } else if !Divides(A, B, ra, rb, minBlock) {
      SideRangesOfPair(DifferentPart, ra, rb);
    } else {
      PivotInside(A, B, ra, rb, minBlock);
      CorrectedTranscriptAtPivot(A, B, ra, rb, minBlock);
      var p := Pivot(A, B, ra, rb);
      var before := CorrectedTranscript(A, B, Before(ra, p.a), Before(rb, p.b), minBlock);
      var after := CorrectedTranscript(A, B, After(ra, p.a), After(rb, p.b), minBlock);
      CorrectedTranscriptInOrder(A, B, Before(ra, p.a), Before(rb, p.b), minBlock);
      CorrectedTranscriptInOrder(A, B, After(ra, p.a), After(rb, p.b), minBlock);
      SideRangesOfPair(CommonPart, p.a, p.b);
      InOrderAroundPivot(before, Common(p.a, p.b), after, Left, ra, p.a);
      InOrderAroundPivot(before, Common(p.a, p.b), after, Right, rb, p.b);
    }
  }
}
