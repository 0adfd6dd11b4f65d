/**
 * The recursive divide-and-conquer comparison shared by the three implementations
 * (impl/ContentsComparatorImpl.java). The source's abstract class is specialised by overriding
 * `createContext` and `findBiggestOverlap`; here the implementation carries the strategy it
 * stands for and dispatches on it.
 */
module Engine {
  import opened Ranges
  import opened Overlaps
  import opened Contents
  import opened Runs
  import opened DiffEvents
  import opened Recursion
  import QuadMem
  import LowMem
  import Hash

  /** The three subclasses of the source. */
  datatype Strategy = QuadMemStrategy | LowMemStrategy | HashStrategy

  /** The context object `createContext()` returns, one kind per strategy. */
  datatype Context =
    | QuadMemContext(quad: QuadMem.QuadMemContext)
    | LowMemContext(low: LowMem.LowMemContext)
    | HashContext(hash: Hash.HashContext)

  /** The kind of context a strategy creates. */
  predicate Creates(strategy: Strategy, ctx: Context)
  {
    match strategy
    case QuadMemStrategy => ctx.QuadMemContext?
    case LowMemStrategy => ctx.LowMemContext?
    case HashStrategy => ctx.HashContext?
  }

  /** The objects a context's invariant depends on. */
  ghost function Footprint(ctx: Context): set<object>
  {
    match ctx
    case QuadMemContext(q) => {q, q.buffer}
    case LowMemContext(l) => {l, l.buffer}
    case HashContext(h) => {h}
  }

  /** The objects a search writes: the two rows and the active-row index of the low-memory context. */
  ghost function Mutable(ctx: Context): set<object>
  {
    match ctx
    case QuadMemContext(_) => {}
    case LowMemContext(l) => {l} + l.rows
    case HashContext(_) => {}
  }

  /** The context was initialised for the left tokens `A` and the right tokens `B`. */
  ghost predicate Fits(ctx: Context, A: seq<Token>, B: seq<Token>)
    reads Footprint(ctx)
  {
    match ctx
    case QuadMemContext(q) => q.Valid() && q.left == A && q.right == B
    case LowMemContext(l) => l.Valid() && l.Width() == |B|
    case HashContext(h) => h.Valid() && h.left == A && h.right == B
  }

  /**
   * `findBiggestOverlap`, whichever implementation the context belongs to: every one of them
   * leaves in `res` the first longest common run of the two ranges, in the row-major order of
   * the table.
   */
  method FindBiggestOverlap(a: Content, rangeA: IntRange, b: Content, rangeB: IntRange, res: Overlap, ctx: Context)
    requires Fits(ctx, a.items, b.items)
    requires rangeA.Valid() && rangeB.Valid()
    requires InBounds(a.items, rangeA.Value()) && InBounds(b.items, rangeB.Value())
    requires res.Valid() && res.a != rangeA && res.a != rangeB && res.b != rangeA && res.b != rangeB
    modifies res.a, res.b, Mutable(ctx)
    ensures res.Valid() && Fits(ctx, a.items, b.items)
    ensures res.Value() == TableScan(a.items, b.items, rangeA.Value(), rangeB.Value(),
                                     rangeA.end, Scan(0, old(res.Value()))).found
  {
    if ctx.QuadMemContext? {
      QuadMem.FindBiggestOverlap(a, rangeA, b, rangeB, res, ctx.quad);
    } else if ctx.LowMemContext? {
      LowMem.FindBiggestOverlap(a, rangeA, b, rangeB, res, ctx.low);
    } else {
      Hash.FindBiggestOverlap(a, rangeA, b, rangeB, res, ctx.hash);
    }
  }

  /** An empty range on either side: similarity 0 and no events. */
  lemma EmptyStep(t: seq<Event>, A: seq<Token>, B: seq<Token>, ra: Interval, rb: Interval, minBlock: int)
    requires InBounds(A, ra) && InBounds(B, rb) && (ra.Length() == 0 || rb.Length() == 0)
    ensures Similarity(A, B, ra, rb, minBlock) == 0.0
    ensures t + Transcript(A, B, ra, rb, minBlock) == t
  {
    assert Transcript(A, B, ra, rb, minBlock) == [];
  }

  /**
   * Non-empty ranges the pivot does not divide: similarity 0, and their transcript is the
   * pair of unmatched ranges.
   */
  lemma UndividedStep(A: seq<Token>, B: seq<Token>, ra: Interval, rb: Interval, minBlock: int)
    requires InBounds(A, ra) && InBounds(B, rb) && ra.Length() > 0 && rb.Length() > 0
    requires !Divides(A, B, ra, rb, minBlock)
    ensures Similarity(A, B, ra, rb, minBlock) == 0.0
    ensures Transcript(A, B, ra, rb, minBlock) == Different(ra, rb)
  {
  }

  /**
   * Ranges the pivot divides: the similarity and the transcript of one division step, in
   * the order the source accumulates and reports them.
   */
  lemma DividedStep(t: seq<Event>, A: seq<Token>, B: seq<Token>, ra: Interval, rb: Interval, minBlock: int)
    requires InBounds(A, ra) && InBounds(B, rb) && Divides(A, B, ra, rb, minBlock)
    ensures var p := Pivot(A, B, ra, rb);
      && InBounds(A, Before(ra, p.a)) && InBounds(B, Before(rb, p.b))
      && InBounds(A, After(ra, p.a)) && InBounds(B, After(rb, p.b))
      && Similarity(A, B, ra, rb, minBlock)
         == WeightedSum(Ratio(p.a.Length(), Max(ra.Length(), rb.Length())),
              Weight(Before(ra, p.a), ra, Before(rb, p.b), rb), Similarity(A, B, Before(ra, p.a), Before(rb, p.b), minBlock),
              Weight(After(ra, p.a), ra, After(rb, p.b), rb), Similarity(A, B, After(ra, p.a), After(rb, p.b), minBlock))
      && t + Transcript(A, B, Before(ra, p.a), Before(rb, p.b), minBlock)
           + Common(Interval(ra.begin, p.a.end), Interval(rb.begin, p.b.end))
           + Transcript(A, B, After(ra, p.a), After(rb, p.b), minBlock)
         == t + Transcript(A, B, ra, rb, minBlock)
  {
    SimilarityAtPivot(A, B, ra, rb, minBlock);
    TranscriptAtPivot(A, B, ra, rb, minBlock);
  }

  /** `sum` accumulated as the source does it, from 0. */
  lemma WeightedSumInSteps(r: real, w1: real, s1: real, w2: real, s2: real)
    ensures 0.0 + r + w1 * s1 + w2 * s2 == WeightedSum(r, w1, s1, w2, s2)
  {
  }

  /** Two single events appended one after the other. */
  lemma AppendTwo(x: seq<Event>, e1: Event, e2: Event)
    ensures x + [e1] + [e2] == x + [e1, e2]
  {
  }

  class ContentsComparatorImpl {
    const strategy: Strategy

    constructor (strategy: Strategy)
      ensures this.strategy == strategy
    {
      this.strategy := strategy;
    }

    /** `createContext()` followed by `initialize(a, b)`. */
    method CreateContext(a: Content, b: Content) returns (ctx: Context)
      ensures Creates(strategy, ctx) && Fits(ctx, a.items, b.items)
      ensures fresh(Footprint(ctx)) && fresh(Mutable(ctx))
    {
      if strategy.QuadMemStrategy? {
        var q := new QuadMem.QuadMemContext.Initialize(a, b);
        ctx := QuadMemContext(q);
      } else if strategy.LowMemStrategy? {
        var l := new LowMem.LowMemContext.Initialize(a, b);
        ctx := LowMemContext(l);
      } else {
        var h := new Hash.HashContext.Initialize(a, b);
        ctx := HashContext(h);
      }
    }

    /**
     * `compare`: the similarity of the two whole contents. A non-null handler sees
     * `onBeforeStart`, the events of the recursion, then `onDone` with the result.
     */
    method Compare(a: Content, b: Content, consumer: EventRecorder?, minBlockSize: int) returns (res: real)
      requires a.Valid() && b.Valid()
      modifies consumer
      ensures res == Similarity(a.items, b.items, Interval(0, |a.items|), Interval(0, |b.items|), minBlockSize)
      ensures consumer != null ==>
        consumer.trace == old(consumer.trace) + [BeforeStart]
          + Transcript(a.items, b.items, Interval(0, |a.items|), Interval(0, |b.items|), minBlockSize)
          + [Done(res)]
    {
      var overlap := new Overlap();
      var helpA := new IntRange.Copy(a.GetRange());
      var helpB := new IntRange.Copy(b.GetRange());
      var context := CreateContext(a, b);
      if consumer != null {
        consumer.OnBeforeStart();
      }
      res := CompareIntervalsRecursively(a, helpA, b, helpB, minBlockSize, consumer, overlap, context);
      if consumer != null {
        consumer.OnDone(res);
      }
    }

    /**
     * `compareIntervalsRecursively`: returns the similarity of the two current ranges and
     * reports their transcript. The two range objects and the overlap are reused throughout
     * the recursion, so their final values are not specified.
     */
    method CompareIntervalsRecursively(a: Content, rangeA: IntRange, b: Content, rangeB: IntRange, minBlockSize: int,
                                       consumer: EventRecorder?, overlap: Overlap, ctx: Context) returns (sum: real)
      requires Fits(ctx, a.items, b.items)
      requires rangeA.Valid() && rangeB.Valid() && rangeA != rangeB
      requires InBounds(a.items, rangeA.Value()) && InBounds(b.items, rangeB.Value())
      requires overlap.Valid() && overlap.a != rangeA && overlap.a != rangeB && overlap.b != rangeA && overlap.b != rangeB
      modifies rangeA, rangeB, overlap.a, overlap.b, consumer, Mutable(ctx)
      ensures rangeA.Valid() && rangeB.Valid() && overlap.Valid() && Fits(ctx, a.items, b.items)
      ensures sum == Similarity(a.items, b.items, old(rangeA.Value()), old(rangeB.Value()), minBlockSize)
      ensures consumer != null ==>
        consumer.trace == old(consumer.trace) + Transcript(a.items, b.items, old(rangeA.Value()), old(rangeB.Value()), minBlockSize)
      decreases rangeA.end - rangeA.begin + rangeB.end - rangeB.begin, 2
    {
      ghost var A, B, ra, rb := a.items, b.items, rangeA.Value(), rangeB.Value();
      ghost var t := if consumer != null then consumer.trace else [];
      if rangeA.IsEmpty() || rangeB.IsEmpty() {
        EmptyStep(t, A, B, ra, rb, minBlockSize);
        return 0.0;
      }
      overlap.Clean();
      FindBiggestOverlap(a, rangeA, b, rangeB, overlap, ctx);
      assert overlap.Value() == Pivot(A, B, ra, rb);
      assert consumer != null ==> consumer.trace == t;
      sum := ResolveOverlap(a, rangeA, b, rangeB, minBlockSize, consumer, overlap, ctx, ra, rb);
    }

    /**
     * The rest of one recursion step, once the biggest overlap is known: stop and report both
     * ranges as different, or divide at the overlap.
     */
    method ResolveOverlap(a: Content, rangeA: IntRange, b: Content, rangeB: IntRange, minBlockSize: int,
                          consumer: EventRecorder?, overlap: Overlap, ctx: Context,
                          ghost ra: Interval, ghost rb: Interval) returns (sum: real)
      requires Fits(ctx, a.items, b.items)
      requires rangeA.Valid() && rangeB.Valid() && rangeA != rangeB && rangeA.Value() == ra && rangeB.Value() == rb
      requires InBounds(a.items, ra) && InBounds(b.items, rb) && ra.Length() > 0 && rb.Length() > 0
      requires overlap.Valid() && overlap.a != rangeA && overlap.a != rangeB && overlap.b != rangeA && overlap.b != rangeB
      requires overlap.Value() == Pivot(a.items, b.items, ra, rb)
      modifies rangeA, rangeB, overlap.a, overlap.b, consumer, Mutable(ctx)
      ensures rangeA.Valid() && rangeB.Valid() && overlap.Valid() && Fits(ctx, a.items, b.items)
      ensures sum == Similarity(a.items, b.items, ra, rb, minBlockSize)
      ensures consumer != null ==> consumer.trace == old(consumer.trace) + Transcript(a.items, b.items, ra, rb, minBlockSize)
      decreases ra.Length() + rb.Length(), 1
    {
      ghost var A, B := a.items, b.items;
      ghost var t := if consumer != null then consumer.trace else [];
      PivotSidesAgree(A, B, ra, rb);

      if overlap.GetA().IsEmpty() || overlap.GetB().IsEmpty() {
        if consumer != null {
          ReportDifferent(rangeA, rangeB, consumer);
        }
        UndividedStep(A, B, ra, rb, minBlockSize);
        return 0.0;
      }

      if overlap.GetA().length != overlap.GetB().length {
        // the source throws "Overlap size differs!?" here
        assert false;
      }

      if overlap.GetA().length < minBlockSize {
        if consumer != null {
          ReportDifferent(rangeA, rangeB, consumer);
        }
        UndividedStep(A, B, ra, rb, minBlockSize);
        return 0.0;
      }

      PivotInside(A, B, ra, rb, minBlockSize);
      ghost var p := Pivot(A, B, ra, rb);
      sum := DivideAtOverlap(a, rangeA, b, rangeB, minBlockSize, consumer, overlap, ctx, ra, rb, p.a, p.b);
      DividedStep(t, A, B, ra, rb, minBlockSize);
    }

    /** Reports both ranges as unmatched, left side first. */
    method ReportDifferent(rangeA: IntRange, rangeB: IntRange, consumer: EventRecorder)
      modifies consumer
      ensures consumer.trace == old(consumer.trace) + Different(rangeA.Value(), rangeB.Value())
    {
      ghost var t := consumer.trace;
      consumer.Handle(rangeA.Value(), DifferentPart, Left);
      consumer.Handle(rangeB.Value(), DifferentPart, Right);
      AppendTwo(t, Part(DifferentPart, Left, rangeA.Value()), Part(DifferentPart, Right, rangeB.Value()));
    }

    /**
     * One side of a division: the two ranges are set to the given bounds and compared
     * recursively.
     */
    method CompareSide(a: Content, rangeA: IntRange, aBegin: int, aEnd: int,
                       b: Content, rangeB: IntRange, bBegin: int, bEnd: int, minBlockSize: int,
                       consumer: EventRecorder?, overlap: Overlap, ctx: Context) returns (sum: real)
      requires Fits(ctx, a.items, b.items)
      requires InBounds(a.items, Interval(aBegin, aEnd)) && InBounds(b.items, Interval(bBegin, bEnd))
      requires rangeA != rangeB
      requires overlap.Valid() && overlap.a != rangeA && overlap.a != rangeB && overlap.b != rangeA && overlap.b != rangeB
      modifies rangeA, rangeB, overlap.a, overlap.b, consumer, Mutable(ctx)
      ensures rangeA.Valid() && rangeB.Valid() && overlap.Valid() && Fits(ctx, a.items, b.items)
      ensures sum == Similarity(a.items, b.items, Interval(aBegin, aEnd), Interval(bBegin, bEnd), minBlockSize)
      ensures consumer != null ==>
        consumer.trace == old(consumer.trace) + Transcript(a.items, b.items, Interval(aBegin, aEnd), Interval(bBegin, bEnd), minBlockSize)
      decreases aEnd - aBegin + bEnd - bBegin, 3
    {
      var _ := rangeA.Initialize(aBegin, aEnd);
      var _ := rangeB.Initialize(bBegin, bEnd);
      sum := CompareIntervalsRecursively(a, rangeA, b, rangeB, minBlockSize, consumer, overlap, ctx);
    }

    /**
     * Reports the matched pair: each range is set to run from its side's begin to the end
     * of its side's match, and handed to the consumer, left side first.
     */
    method ReportCommon(rangeA: IntRange, aBegin: int, aEnd: int, rangeB: IntRange, bBegin: int, bEnd: int,
                        consumer: EventRecorder)
      requires aBegin <= aEnd && bBegin <= bEnd && rangeA != rangeB
      modifies rangeA, rangeB, consumer
      ensures rangeA.Valid() && rangeA.Value() == Interval(aBegin, aEnd)
      ensures rangeB.Valid() && rangeB.Value() == Interval(bBegin, bEnd)
      ensures consumer.trace == old(consumer.trace) + Common(Interval(aBegin, aEnd), Interval(bBegin, bEnd))
    {
      var _ := rangeA.Initialize(aBegin, aEnd);
      var _ := rangeB.Initialize(bBegin, bEnd);
      ghost var t := consumer.trace;
      consumer.Handle(rangeA.Value(), CommonPart, Left);
      consumer.Handle(rangeB.Value(), CommonPart, Right);
      AppendTwo(t, Part(CommonPart, Left, rangeA.Value()), Part(CommonPart, Right, rangeB.Value()));
    }

    /**
     * The second half of `compareIntervalsRecursively`, once the overlap `(pa, pb)` is known to
     * divide the ranges: the overlap's share of the longer range, then the weighted
     * similarities of the parts before and after it, with the common pair reported between them.
     */
    method DivideAtOverlap(a: Content, rangeA: IntRange, b: Content, rangeB: IntRange, minBlockSize: int,
                           consumer: EventRecorder?, overlap: Overlap, ctx: Context,
                           ghost ra: Interval, ghost rb: Interval, ghost pa: Interval, ghost pb: Interval) returns (sum: real)
      requires Fits(ctx, a.items, b.items)
      requires rangeA.Valid() && rangeB.Valid() && rangeA != rangeB && rangeA.Value() == ra && rangeB.Value() == rb
      requires InBounds(a.items, ra) && InBounds(b.items, rb)
      requires overlap.Valid() && overlap.a != rangeA && overlap.a != rangeB && overlap.b != rangeA && overlap.b != rangeB
      requires overlap.Value() == RangePair(pa, pb) && 0 < pa.Length() == pb.Length()
      requires ra.begin <= pa.begin && pa.end <= ra.end && rb.begin <= pb.begin && pb.end <= rb.end
      modifies rangeA, rangeB, overlap.a, overlap.b, consumer, Mutable(ctx)
      ensures rangeA.Valid() && rangeB.Valid() && overlap.Valid() && Fits(ctx, a.items, b.items)
      ensures sum == WeightedSum(Ratio(pa.Length(), Max(ra.Length(), rb.Length())),
        Weight(Before(ra, pa), ra, Before(rb, pb), rb), Similarity(a.items, b.items, Before(ra, pa), Before(rb, pb), minBlockSize),
        Weight(After(ra, pa), ra, After(rb, pb), rb), Similarity(a.items, b.items, After(ra, pa), After(rb, pb), minBlockSize))
      ensures consumer != null ==>
        consumer.trace == old(consumer.trace)
          + Transcript(a.items, b.items, Before(ra, pa), Before(rb, pb), minBlockSize)
          + Common(Interval(ra.begin, pa.end), Interval(rb.begin, pb.end))
          + Transcript(a.items, b.items, After(ra, pa), After(rb, pb), minBlockSize)
      decreases ra.Length() + rb.Length(), 0
    {
      sum := 0.0;
      sum := sum + Ratio(overlap.GetA().length, Max(rangeA.length, rangeB.length));

      var h1aBegin, h1aEnd := rangeA.begin, overlap.GetA().begin;
      var h1bBegin, h1bEnd := rangeB.begin, overlap.GetB().begin;
      var h2aBegin, h2aEnd := overlap.GetA().end, rangeA.end;
      var h2bBegin, h2bEnd := overlap.GetB().end, rangeB.end;

      var beforeMaxPart := RMax(Ratio(h1aEnd - h1aBegin, rangeA.length), Ratio(h1bEnd - h1bBegin, rangeB.length));
      var afterMaxPart := RMax(Ratio(h2aEnd - h2aBegin, rangeA.length), Ratio(h2bEnd - h2bBegin, rangeB.length));
      ghost var share := sum;
      assert share == Ratio(pa.Length(), Max(ra.Length(), rb.Length()));
      assert beforeMaxPart == Weight(Before(ra, pa), ra, Before(rb, pb), rb);
      assert afterMaxPart == Weight(After(ra, pa), ra, After(rb, pb), rb);

      var before := CompareSide(a, rangeA, h1aBegin, h1aEnd, b, rangeB, h1bBegin, h1bEnd, minBlockSize, consumer, overlap, ctx);
      assert before == Similarity(a.items, b.items, Before(ra, pa), Before(rb, pb), minBlockSize);
      sum := sum + beforeMaxPart * before;

      if consumer != null {
        ReportCommon(rangeA, h1aBegin, h2aBegin, rangeB, h1bBegin, h2bBegin, consumer);
      }

      var after := CompareSide(a, rangeA, h2aBegin, h2aEnd, b, rangeB, h2bBegin, h2bEnd, minBlockSize, consumer, overlap, ctx);
      assert after == Similarity(a.items, b.items, After(ra, pa), After(rb, pb), minBlockSize);
      sum := sum + afterMaxPart * after;
      WeightedSumInSteps(share, beforeMaxPart, before, afterMaxPart, after);
    }
  }
}
