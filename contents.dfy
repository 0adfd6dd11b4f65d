/** The token sequence being compared (Content.java) and its range iterator (ContentIterator.java). */
module Contents {
  import opened Wrappers
  import opened Ranges

  /** The source compares `String` items with `equals`, which is equality of the character sequences. */
  type Token = string

  class Content {
    /**
     * The items. The source keeps the caller's array (or a copy of the caller's list) and never
     * writes to it, so the model holds its contents as a value.
     */
    const items: seq<Token>
    /** `getRange()`: the whole extent `[0, items.length)`. */
    const range: IntRange
    var contentId: Option<string>

    ghost predicate Valid()
      reads this, range
    {
      range.Valid() && range.Value() == Interval(0, |items|)
    }

    /** `Content(String[] items)` and `Content(List<String> items)`: the range covers every item. */
    constructor (items: seq<Token>)
      ensures Valid() && this.items == items && fresh(range) && contentId == None
    {
      this.items := items;
      range := new IntRange(0, |items|);
      contentId := None;
    }

    function GetRange(): (r: IntRange)
      reads this, range
      requires Valid()
      ensures r == range && r.Value() == Interval(0, Length())
    {
      range
    }

    function Length(): nat
    {
      |items|
    }

    function GetItem(index: int): Token
      requires 0 <= index < |items|
    {
      items[index]
    }

    function GetContentId(): Option<string>
      reads this
    {
      contentId
    }

    method SetContentId(id: Option<string>)
      modifies this
      ensures contentId == id
      ensures GetContentId() == id
    {
      contentId := id;
    }

    /** `equals`: `Arrays.equals` on the two item arrays. */
    method Equals(other: Content) returns (r: bool)
      ensures r <==> items == other.items
    {
      if |items| != |other.items| {
        return false;
      }
      var k := 0;
      while k < |items|
        invariant 0 <= k <= |items|
        invariant forall m :: 0 <= m < k ==> items[m] == other.items[m]
      {
        if items[k] != other.items[k] {
          return false;
        }
        k := k + 1;
      }
      r := true;
    }

    /** `rangeIterable(range).iterator()`. */
    method RangeIterator(r: IntRange) returns (it: ContentIterator)
      requires r.Valid() && 0 <= r.begin
      ensures fresh(it) && it.Valid() && it.content == this && it.range == r && it.actIndex == r.begin
    {
      it := new ContentIterator(this, r);
    }
  }

  class ContentIterator {
    const content: Content
    const range: IntRange
    var actIndex: int
    /** The items returned by `Next` so far. */
    ghost var produced: seq<Token>

    ghost predicate Valid()
      reads this, range, content
    {
      range.Valid() && 0 <= range.begin <= actIndex
      && (range.begin < actIndex ==> actIndex <= |content.items|)
      && produced == (if range.begin < actIndex then content.items[range.begin..actIndex] else [])
    }

    /** Starts at `range.begin`. */
    constructor (content: Content, range: IntRange)
      requires range.Valid() && 0 <= range.begin
      ensures Valid() && this.content == content && this.range == range
      ensures actIndex == range.begin && produced == []
    {
      this.content := content;
      this.range := range;
      actIndex := range.begin;
      produced := [];
    }

    /** More items remain exactly while fewer than the range's length have been produced. */
    predicate HasNext()
      reads this, range, content
      requires Valid()
      ensures HasNext() <==> |produced| < range.end - range.begin
    {
      actIndex < range.end
    }

    /** Returns the current item and advances by one; the array access needs a valid index. */
    method Next() returns (t: Token)
      requires Valid() && actIndex < |content.items|
      modifies this
      ensures Valid() && actIndex == old(actIndex) + 1
      ensures t == content.items[old(actIndex)]
      ensures produced == old(produced) + [t]
    {
      t := content.items[actIndex];
      actIndex := actIndex + 1;
      produced := produced + [t];
    }

    /** Not supported: the source always throws. */
    method Remove() returns (r: Outcome)
      ensures r.Fail?
    {
      r := Fail("UnsupportedOperationException");
    }
  }

  /**
   * An iterator that was advanced exactly while `HasNext` held has produced the items
   * `items[begin..end)`, in order.
   */
  lemma DrainedIteratorYieldsItems(it: ContentIterator)
    requires it.Valid() && !it.HasNext() && it.actIndex <= it.range.end
    requires it.range.end <= |it.content.items|
    ensures it.produced == it.content.items[it.range.begin..it.range.end]
  {
  }
}
