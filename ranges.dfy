/**
 * Half-open integer ranges `[begin, end)` (utils/IntRange.java): a value type `Interval`
 * used by the specifications, the mutable `IntRange` class the source reuses during the
 * recursion, and the range iterator.
 */
module Ranges {
  import opened Wrappers

  /** The value held by an `IntRange`. */
  datatype Interval = Interval(begin: int, end: int) {
    function Length(): int { end - begin }

    predicate Has(v: int) { begin <= v < end }
  }

  /** The indices of a well-formed interval, in ascending order. */
  function Enumerate(r: Interval): (s: seq<int>)
    requires r.begin <= r.end
    ensures |s| == r.Length() && forall k :: 0 <= k < |s| ==> r.Has(s[k])
  {
    seq(r.Length(), k => r.begin + k)
  }

  /** The smallest interval holding `r` and `v`, as `extend(v)` computes it. */
  function ExtendedBy(r: Interval, v: int): Interval
  {
    if r.begin == r.end then Interval(v, v + 1)
    else Interval(if v < r.begin then v else r.begin, if v + 1 > r.end then v + 1 else r.end)
  }

  /** Two ranges, one per content: the value held by an `Overlap`. */
  datatype RangePair = RangePair(a: Interval, b: Interval)

  /** The state `clean()` leaves a range in. */
  const Cleaned := Interval(0, 0)

  class IntRange {
    var begin: int
    var end: int
    /** Cached by the source; kept equal to `end - begin`. */
    var length: int

    ghost predicate Valid()
      reads this
    {
      begin <= end && length == end - begin
    }

    function Value(): Interval
      reads this
    {
      Interval(begin, end)
    }

    /** `IntRange(begin, end)`: the source throws when `begin > end`. */
    constructor (begin: int, end: int)
      requires begin <= end
      ensures Valid() && Value() == Interval(begin, end)
    {
      this.begin, this.end, this.length := begin, end, end - begin;
    }

    /** `IntRange()`: an empty range `[0, 0)`. */
    constructor Empty()
      ensures Valid() && Value() == Cleaned && length == 0
    {
      begin, end, length := 0, 0, 0;
    }

    /** Copy constructor: same bounds, a different object. */
    constructor Copy(other: IntRange)
      requires other.Valid()
      ensures Valid() && Value() == other.Value()
    {
      begin, end, length := other.begin, other.end, other.end - other.begin;
    }

    method Clean()
      modifies this
      ensures Valid() && Value() == Cleaned && length == 0
    {
      begin, end, length := 0, 0, 0;
    }

    /** Re-initialises the range in place; `begin > end` throws before anything changes. */
    method Initialize(b: int, e: int) returns (r: Outcome)
      modifies this
      ensures r.Pass? <==> b <= e
      ensures r.Pass? ==> Valid() && Value() == Interval(b, e)
      ensures r.Fail? ==> begin == old(begin) && end == old(end) && length == old(length)
    {
      if b > e {
        return Fail("End must be equal or greater than begin");
      }
      begin, end, length := b, e, e - b;
      r := Pass;
    }

    predicate IsEmpty()
      reads this
      requires Valid()
      ensures IsEmpty() <==> begin == end
    {
      length < 1
    }

    predicate Contains(v: int)
      reads this
      ensures Contains(v) ==> begin < end
    {
      v >= begin && v < end
    }

    /** Grows the range minimally so that `v` is inside. */
    method Extend(v: int)
      requires Valid()
      modifies this
      ensures Valid() && Value() == ExtendedBy(old(Value()), v)
    {
      if IsEmpty() {
        begin := v;
        end := v + 1;
      } else if v + 1 > end {
        end := v + 1;
      } else if v < begin {
        begin := v;
      } else {
        return;
      }
      length := end - begin;
    }

    /** Either range holds an end point of the other. */
    static predicate Intersects(a: IntRange, b: IntRange)
      reads a, b
      ensures Intersects(a, b) && a.begin < a.end && b.begin < b.end ==> exists v :: a.Contains(v) && b.Contains(v)
    {
      a.Contains(b.begin) || a.Contains(b.end - 1) || b.Contains(a.begin) || b.Contains(a.end - 1)
    }

    /** `iterator()`: a fresh iterator over this range. */
    method Iterator() returns (it: RangeIterator)
      requires Valid()
      ensures fresh(it) && it.Valid() && it.range == this && it.Yielded() == []
    {
      it := new RangeIterator(this);
    }
  }

  /** After `Extend(v)`, `v` is inside and everything that was inside still is. */
  lemma ExtendCovers(r: Interval, v: int)
    requires r.begin <= r.end
    ensures ExtendedBy(r, v).Has(v)
    ensures forall w :: r.Has(w) ==> ExtendedBy(r, v).Has(w)
    ensures r.Has(v) ==> ExtendedBy(r, v) == r
    ensures ExtendedBy(r, v).begin < ExtendedBy(r, v).end
  {
  }

  lemma IntersectsSymmetric(a: IntRange, b: IntRange)
    ensures IntRange.Intersects(a, b) == IntRange.Intersects(b, a)
  {
  }

  /** For non-empty ranges, `Intersects` holds exactly when some index lies in both. */
  lemma IntersectsIffSharedIndex(a: IntRange, b: IntRange)
    requires a.Valid() && b.Valid() && !a.IsEmpty() && !b.IsEmpty()
    ensures IntRange.Intersects(a, b) <==> exists v :: a.Contains(v) && b.Contains(v)
  {
    if exists v :: a.Contains(v) && b.Contains(v) {
      var v :| a.Contains(v) && b.Contains(v);
      if b.begin <= a.begin {
        assert b.Contains(a.begin);
      } else {
        assert a.Contains(b.begin);
      }
    }
  }

  /** `IntRange.MyIterator`: yields `begin, begin + 1, ...` while `act < length`. */
  class RangeIterator {
    const range: IntRange
    var act: int
    /** The values returned by `Next` so far. */
    ghost var yielded: seq<int>

    ghost predicate Valid()
      reads this, range
    {
      range.Valid() && 0 <= act && |yielded| == act
      && forall k :: 0 <= k < act ==> yielded[k] == range.begin + k
    }

    ghost function Yielded(): seq<int>
      reads this
    {
      yielded
    }

    constructor (range: IntRange)
      requires range.Valid()
      ensures Valid() && this.range == range && act == 0 && yielded == []
    {
      this.range := range;
      act := 0;
      yielded := [];
    }

    predicate HasNext()
      reads this, range
      requires Valid()
      ensures HasNext() <==> |yielded| < range.end - range.begin
    {
      act < range.length
    }

    method Next() returns (v: int)
      requires Valid()
      modifies this
      ensures Valid() && act == old(act) + 1
      ensures v == range.begin + old(act)
      ensures yielded == old(yielded) + [v]
    {
      v := range.begin + act;
      act := act + 1;
      yielded := yielded + [v];
    }

    /** The source throws UnsupportedOperationException. */
    method Remove() returns (r: Outcome)
      ensures r.Fail?
    {
      r := Fail("UnsupportedOperationException");
    }
  }

  /**
   * An iterator that has been drained (`Next` called exactly while `HasNext` held) has
   * yielded `begin, ..., end - 1`: exactly `length` values.
   */
  lemma DrainedIteratorYieldsRange(it: RangeIterator)
    requires it.Valid() && !it.HasNext() && it.act <= it.range.length
    ensures it.Yielded() == Enumerate(it.range.Value())
  {
    var e := Enumerate(it.range.Value());
    assert |it.yielded| == |e|;
    forall k | 0 <= k < |e| ensures it.yielded[k] == e[k] {
    }
  }
}
