/** A pair of ranges, one per content (utils/Overlap.java). */
module Overlaps {
  import opened Ranges

  class Overlap {
    /** The two held ranges; `getA()` / `getB()` hand out these very objects. */
    const a: IntRange
    const b: IntRange

    ghost predicate Valid()
      reads this, a, b
    {
      a != b && a.Valid() && b.Valid()
    }

    function Value(): RangePair
      reads this, a, b
    {
      RangePair(a.Value(), b.Value())
    }

    /** A new overlap holds two distinct empty ranges `[0, 0)`. */
    constructor ()
      ensures Valid() && fresh(a) && fresh(b)
      ensures Value() == RangePair(Cleaned, Cleaned)
    {
      a := new IntRange.Empty();
      b := new IntRange.Empty();
    }

    function GetA(): (r: IntRange)
      ensures r == a
    {
      a
    }

    function GetB(): (r: IntRange)
      ensures r == b
    {
      b
    }

    method Clean()
      requires Valid()
      modifies a, b
      ensures Valid() && Value() == RangePair(Cleaned, Cleaned)
    {
      a.Clean();
      b.Clean();
    }
  }

  /**
   * The held ranges are aliases: re-initialising the object `GetA()` returns changes the
   * overlap's A side and leaves its B side alone.
   */
  method ReinitialiseThroughGetter(o: Overlap, begin: int, end: int)
    requires o.Valid() && begin <= end
    modifies o.a
    ensures o.Valid()
    ensures o.Value() == RangePair(Interval(begin, end), old(o.b.Value()))
  {
    var r := o.GetA();
    var _ := r.Initialize(begin, end);
  }
}
