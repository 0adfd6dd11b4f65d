/**
 * The entry point: a comparator holding one recursion strategy, the compare overloads, and the
 * size-based shortcut of compareWithExpectation.
 */
module Comparator {
  import opened Wrappers
  import opened Ranges
  import opened Contents
  import opened Runs
  import opened DiffEvents
  import opened Recursion
  import opened Engine
  import Scenarios

  /**
   * `min(m, n) / (double) max(m, n)`. With two empty contents the division is 0 / 0.0, which
   * is NaN in the source; the model has no NaN and returns `None` there.
   */
  function BestPossible(m: nat, n: nat): (r: Option<real>)
    ensures r.Some? <==> Max(m, n) > 0
    ensures r.Some? ==> 0.0 <= r.value <= 1.0 && r.value * Max(m, n) as real == Min(m, n) as real
  {
    if Max(m, n) == 0 then None
    else
      RatioOfShorter(Min(m, n), Max(m, n));
      Some(Ratio(Min(m, n), Max(m, n)))
  }

  /** The shorter length over the longer one lies in `[0, 1]` and scales back to the shorter length. */
  lemma RatioOfShorter(x: int, y: int)
    requires 0 <= x <= y && y > 0
    ensures 0.0 <= Ratio(x, y) <= 1.0 && Ratio(x, y) * y as real == x as real
  {
    assert Ratio(x, y) * y as real == x as real;
  }

  /** `bestPossible < minExpectation`: false when `bestPossible` is NaN, as every comparison with NaN is. */
  predicate GuardFires(m: nat, n: nat, minExpectation: real)
  {
    match BestPossible(m, n)
    case None => false
    case Some(best) => best < minExpectation
  }

  /**
   * The guard skips the comparison exactly when one content is empty and the other is not and
   * something above 0 is expected, or when both are non-empty and the length ratio is below the
   * expectation.
   */
  lemma GuardFiresCases(m: nat, n: nat, minExpectation: real)
    ensures GuardFires(m, n, minExpectation) <==>
      if m == 0 && n == 0 then false
      else if m == 0 || n == 0 then 0.0 < minExpectation
      else Ratio(Min(m, n), Max(m, n)) < minExpectation
  {
  }

  /**
   * The skip the guard promises: only where the result could not reach the expectation. This
   * choice is sound but conservative: it skips only when a content is empty (the similarity is
   * then 0), and gives up other sound skips, such as the one `Recursion.OneTokenBound` allows.
   */
  predicate CorrectedGuardFires(m: nat, n: nat, minExpectation: real)
  {
    (m == 0 || n == 0) && 0.0 < minExpectation
  }

  /** The whole of both contents. */
  function Whole(A: seq<Token>): (r: Interval)
    ensures InBounds(A, r) && r.Length() == |A|
  {
    Interval(0, |A|)
  }

  /** The corrected guard never skips a comparison whose result would reach the expectation. */
  lemma CorrectedGuardSound(A: seq<Token>, B: seq<Token>, minBlockSize: int, minExpectation: real)
    requires CorrectedGuardFires(|A|, |B|, minExpectation)
    ensures Similarity(A, B, Whole(A), Whole(B), minBlockSize) < minExpectation
  {
    EmptyStep([], A, B, Whole(A), Whole(B), minBlockSize);
  }

  /** Wherever the corrected guard fires, the guard as written fires too: it never skips more than the source. */
  lemma CorrectedGuardWithinGuard(m: nat, n: nat, minExpectation: real)
    requires CorrectedGuardFires(m, n, minExpectation) && (m > 0 || n > 0)
    ensures GuardFires(m, n, minExpectation)
  {
  }

  /**
   * The guard as written skips a comparison whose result reaches the expectation: for a
   * two-token content against a six-token one the length ratio is 1/3, below an expectation
   * of 2/5, while the similarity is 5/12.
   */
  lemma GuardSkipsReachableGoal()
    ensures var A, B := ["t", "t"], ["u", "u", "u", "t", "u", "t"];
      && GuardFires(|A|, |B|, 2.0 / 5.0)
      && Similarity(A, B, Whole(A), Whole(B), 0) == 5.0 / 12.0
      && Similarity(A, B, Whole(A), Whole(B), 0) >= 2.0 / 5.0
  {
    var A: seq<Token>, B: seq<Token> := ["t", "t"], ["u", "u", "u", "t", "u", "t"];
    assert Scenarios.SparseMatches(A, B);
    Scenarios.SparseMatchesSimilarity(A, B);
    assert BestPossible(2, 6) == Some(2.0 / 6.0);
  }

  /** `ContentComparator`: a stateless front end over one recursion strategy. */
  class ContentComparator {
    const impl: ContentsComparatorImpl

    /** The default strategy is the sparse, hash-map based one. */
    constructor ()
      ensures impl.strategy == HashStrategy
    {
      impl := new ContentsComparatorImpl(HashStrategy);
    }

    constructor WithImpl(impl: ContentsComparatorImpl)
      ensures this.impl == impl
    {
      this.impl := impl;
    }

    /** `compare(left, right)`: no handler and no minimum block size. */
    method Compare(left: Content, right: Content) returns (res: real)
      requires left.Valid() && right.Valid()
      ensures res == Similarity(left.items, right.items, Whole(left.items), Whole(right.items), 0)
    {
      res := impl.Compare(left, right, null, 0);
    }

    /** `compare(left, right, handler)`: no minimum block size. */
    method CompareWithHandler(left: Content, right: Content, handler: EventRecorder?) returns (res: real)
      requires left.Valid() && right.Valid()
      modifies handler
      ensures res == Similarity(left.items, right.items, Whole(left.items), Whole(right.items), 0)
      ensures handler != null ==>
        handler.trace == old(handler.trace) + [BeforeStart]
          + Transcript(left.items, right.items, Whole(left.items), Whole(right.items), 0) + [Done(res)]
    {
      res := impl.Compare(left, right, handler, 0);
    }

    /** `compare(left, right, handler, minBlockSize)`: handed to the strategy as it is. */
    method CompareWithMinBlock(left: Content, right: Content, handler: EventRecorder?, minBlockSize: int)
      returns (res: real)
      requires left.Valid() && right.Valid()
      modifies handler
      ensures res == Similarity(left.items, right.items, Whole(left.items), Whole(right.items), minBlockSize)
      ensures handler != null ==>
        handler.trace == old(handler.trace) + [BeforeStart]
          + Transcript(left.items, right.items, Whole(left.items), Whole(right.items), minBlockSize) + [Done(res)]
    {
      res := impl.Compare(left, right, handler, minBlockSize);
    }

    /**
     * `compareWithExpectation`: 0 without any event when the length ratio is below
     * `minExpectation`, otherwise the full comparison.
     */
    method CompareWithExpectation(minExpectation: real, left: Content, right: Content,
                                  handler: EventRecorder?, minBlockSize: int) returns (res: real)
      requires left.Valid() && right.Valid()
      modifies handler
      ensures GuardFires(|left.items|, |right.items|, minExpectation) ==>
        res == 0.0 && (handler != null ==> handler.trace == old(handler.trace))
      ensures !GuardFires(|left.items|, |right.items|, minExpectation) ==>
        res == Similarity(left.items, right.items, Whole(left.items), Whole(right.items), minBlockSize)
        && (handler != null ==>
          handler.trace == old(handler.trace) + [BeforeStart]
            + Transcript(left.items, right.items, Whole(left.items), Whole(right.items), minBlockSize) + [Done(res)])
    {
      var bestPossible := BestPossible(left.Length(), right.Length());
      if bestPossible.Some? && bestPossible.value < minExpectation {
        return 0.0;
      }
      res := CompareWithMinBlock(left, right, handler, minBlockSize);
    }

    /**
     * `compareWithExpectation` with the corrected guard: it skips the comparison only where the
     * result is below the expectation, so a result that reaches the expectation is always returned.
     */
    method CorrectedCompareWithExpectation(minExpectation: real, left: Content, right: Content,
                                           handler: EventRecorder?, minBlockSize: int) returns (res: real)
      requires left.Valid() && right.Valid()
      modifies handler
      ensures CorrectedGuardFires(|left.items|, |right.items|, minExpectation) ==>
        res == 0.0 && Similarity(left.items, right.items, Whole(left.items), Whole(right.items), minBlockSize) < minExpectation
        && (handler != null ==> handler.trace == old(handler.trace))
      ensures !CorrectedGuardFires(|left.items|, |right.items|, minExpectation) ==>
        res == Similarity(left.items, right.items, Whole(left.items), Whole(right.items), minBlockSize)
        && (handler != null ==>
          handler.trace == old(handler.trace) + [BeforeStart]
            + Transcript(left.items, right.items, Whole(left.items), Whole(right.items), minBlockSize) + [Done(res)])
    {
      if CorrectedGuardFires(left.Length(), right.Length(), minExpectation) {
        CorrectedGuardSound(left.items, right.items, minBlockSize, minExpectation);
        return 0.0;
      }
      res := CompareWithMinBlock(left, right, handler, minBlockSize);
    }

    /** `compareStatic(a, b)`: a fresh default comparator. */
    static method CompareStatic(a: Content, b: Content) returns (res: real)
      requires a.Valid() && b.Valid()
      ensures res == Similarity(a.items, b.items, Whole(a.items), Whole(b.items), 0)
    {
      var comparator := new ContentComparator();
      res := comparator.Compare(a, b);
    }

    /** `compareStatic(a, b, consumer)`. */
    static method CompareStaticWithHandler(a: Content, b: Content, consumer: EventRecorder?) returns (res: real)
      requires a.Valid() && b.Valid()
      modifies consumer
      ensures res == Similarity(a.items, b.items, Whole(a.items), Whole(b.items), 0)
      ensures consumer != null ==>
        consumer.trace == old(consumer.trace) + [BeforeStart]
          + Transcript(a.items, b.items, Whole(a.items), Whole(b.items), 0) + [Done(res)]
    {
      var comparator := new ContentComparator();
      res := comparator.CompareWithHandler(a, b, consumer);
    }

    /** `compareStatic(a, b, consumer, minBlockSize)`. */
    static method CompareStaticWithMinBlock(a: Content, b: Content, consumer: EventRecorder?, minBlockSize: int)
      returns (res: real)
      requires a.Valid() && b.Valid()
      modifies consumer
      ensures res == Similarity(a.items, b.items, Whole(a.items), Whole(b.items), minBlockSize)
      ensures consumer != null ==>
        consumer.trace == old(consumer.trace) + [BeforeStart]
          + Transcript(a.items, b.items, Whole(a.items), Whole(b.items), minBlockSize) + [Done(res)]
    {
      var comparator := new ContentComparator();
      res := comparator.CompareWithMinBlock(a, b, consumer, minBlockSize);
    }
  }
}
