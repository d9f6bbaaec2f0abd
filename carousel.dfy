/**
 * The rotating showcase of components/Carousel.tsx: a slide index that the
 * arrows, the dots and a periodic timer move over the item list.
 */
module Carousel {
  import opened Wrappers

  /** One slide, as app/Main.tsx builds it from a post. */
  datatype CarouselItem = CarouselItem(title: string, image: string, slug: string)

  /**
   * The index as the JavaScript state holds it: a number that is an integer,
   * or NaN once `% 0` has been taken (the timer runs even with no items).
   */
  datatype Index = At(pos: int) | NaN

  function Abs(x: int): nat
  {
    if x < 0 then -x else x
  }

  /** JavaScript's `%`: the quotient is truncated, so the remainder takes the sign of the dividend. */
  function JsRem(a: int, b: int): (r: int)
    requires b != 0
    ensures a >= 0 && b > 0 ==> r == a % b
  {
    if a >= 0 then a % Abs(b) else -((-a) % Abs(b))
  }

  /**
   * The truncated remainder is smaller than the divisor in magnitude and is
   * zero or has the dividend's sign; only the non-negative case is reached
   * from a valid index.
   */
  lemma JsRemIsTruncated(a: int, b: int)
    requires b != 0
    ensures Abs(JsRem(a, b)) < Abs(b)
    ensures JsRem(a, b) == 0 || (JsRem(a, b) < 0 <==> a < 0)
  {
    var m := Abs(b);
    if a >= 0 {
      assert 0 <= a % m < m;
    } else {
      assert 0 <= (-a) % m < m;
    }
  }

  /** The divisor's sign does not matter, and negating the dividend negates the remainder. */
  lemma JsRemSymmetric(a: int, b: int)
    requires b != 0
    ensures JsRem(a, -b) == JsRem(a, b)
    ensures JsRem(-a, b) == -JsRem(a, b)
  {
    var m := Abs(b);
    assert Abs(-b) == m;
    if a > 0 {
      assert JsRem(a, b) == a % m;
      assert JsRem(-a, b) == -(a % m);
    } else if a < 0 {
      assert JsRem(a, b) == -((-a) % m);
      assert JsRem(-a, b) == (-a) % m;
    } else {
      assert 0 % m == 0;
    }
  }

  /** `(prevIndex + 1) % items.length`, the step of `goToNext` and of the timer. */
  function Advance(i: Index, count: nat): Index
  {
    match i
    case NaN => NaN
    case At(v) => if count == 0 then NaN else At(JsRem(v + 1, count))
  }

  /** `(prevIndex - 1 + items.length) % items.length`, the step of `goToPrevious`. */
  function Retreat(i: Index, count: nat): Index
  {
    match i
    case NaN => NaN
    case At(v) => if count == 0 then NaN else At(JsRem(v - 1 + count, count))
  }

  /** `k` consecutive timer ticks (or `goToNext` clicks) from `i`. */
  function AdvanceTimes(i: Index, count: nat, k: nat): Index
  {
    if k == 0 then i else Advance(AdvanceTimes(i, count, k - 1), count)
  }

  /** The dots of lines 100-108: dot `k` is drawn active iff `k === currentIndex`. */
  function ActiveDots(current: Index, count: nat): (dots: seq<bool>)
    ensures |dots| == count
  {
    seq(count, k => current == At(k))
  }

  /** From a slide in range, next stays in range and is the following slide, wrapping from the last to the first. */
  lemma AdvanceInRange(v: int, count: nat)
    requires 0 <= v < count
    ensures Advance(At(v), count) == At(if v == count - 1 then 0 else v + 1)
  {
  }

  /** From a slide in range, previous stays in range and is the preceding slide, wrapping from the first to the last. */
  lemma RetreatInRange(v: int, count: nat)
    requires 0 <= v < count
    ensures Retreat(At(v), count) == At(if v == 0 then count - 1 else v - 1)
  {
    if v > 0 {
      assert v - 1 + count == (v - 1) + count * 1;
    }
  }

  /** Previous undoes next, and next undoes previous. */
  lemma RetreatUndoesAdvance(v: int, count: nat)
    requires 0 <= v < count
    ensures Retreat(Advance(At(v), count), count) == At(v)
    ensures Advance(Retreat(At(v), count), count) == At(v)
  {
    AdvanceInRange(v, count);
    RetreatInRange(v, count);
    AdvanceInRange(if v == count - 1 then 0 else v + 1, count);
    RetreatInRange(if v == count - 1 then 0 else v + 1, count);
    AdvanceInRange(if v == 0 then count - 1 else v - 1, count);
    RetreatInRange(if v == 0 then count - 1 else v - 1, count);
  }

  /** Within one round, `k` steps from slide `v` reach slide `v + k`, wrapped once past the last slide. */
  lemma {:induction false} AdvanceTimesIs(v: int, count: nat, k: nat)
    requires 0 <= v < count && k <= count
    ensures AdvanceTimes(At(v), count, k) == At(if v + k < count then v + k else v + k - count)
  {
    if k > 0 {
      AdvanceTimesIs(v, count, k - 1);
      AdvanceInRange(if v + k - 1 < count then v + k - 1 else v + k - 1 - count, count);
    }
  }

  /** `count` consecutive steps bring the carousel back to the slide it started from. */
  lemma FullCycle(v: int, count: nat)
    requires 0 <= v < count
    ensures AdvanceTimes(At(v), count, count) == At(v)
  {
    AdvanceTimesIs(v, count, count);
  }

  /** With the index in range exactly one dot is active, the one at the index. */
  lemma ExactlyOneActiveDot(v: int, count: nat)
    requires 0 <= v < count
    ensures ActiveDots(At(v), count)[v]
    ensures forall k | 0 <= k < count && ActiveDots(At(v), count)[k] :: k == v
  {
  }

  /** The component's state: the items it was given and `currentIndex`. */
  class CarouselState {
    const items: seq<CarouselItem>
    var currentIndex: Index

    /** With at least one item the index names one of them. */
    ghost predicate Valid()
      reads this
    {
      |items| > 0 ==> currentIndex.At? && 0 <= currentIndex.pos < |items|
    }

    /** `useState(0)`. */
    constructor (items: seq<CarouselItem>)
      ensures Valid()
      ensures this.items == items && currentIndex == At(0)
    {
      this.items := items;
      currentIndex := At(0);
    }

    method GoToNext()
      requires Valid()
      modifies this
      ensures Valid()
      ensures currentIndex == Advance(old(currentIndex), |items|)
    {
      currentIndex := Advance(currentIndex, |items|);
      if |items| > 0 {
        AdvanceInRange(old(currentIndex).pos, |items|);
      }
    }

    /** The interval callback: the same step as `goToNext`. */
    method Tick()
      requires Valid()
      modifies this
      ensures Valid()
      ensures currentIndex == Advance(old(currentIndex), |items|)
    {
      currentIndex := Advance(currentIndex, |items|);
      if |items| > 0 {
        AdvanceInRange(old(currentIndex).pos, |items|);
      }
    }

    method GoToPrevious()
      requires Valid()
      modifies this
      ensures Valid()
      ensures currentIndex == Retreat(old(currentIndex), |items|)
    {
      currentIndex := Retreat(currentIndex, |items|);
      if |items| > 0 {
        RetreatInRange(old(currentIndex).pos, |items|);
      }
    }

    /** Dot `index` was clicked; the dots offer only `0 .. items.length - 1`. */
    method GoToSlide(index: nat)
      requires Valid()
      requires index < |items|
      modifies this
      ensures Valid()
      ensures currentIndex == At(index)
    {
      currentIndex := At(index);
    }

    /** The dot row, or `None` when there are no items and the component renders nothing. */
    function Dots(): (dots: Option<seq<bool>>)
      reads this
      ensures dots.None? <==> |items| == 0
      ensures dots.Some? ==> |dots.value| == |items|
      ensures dots.Some? ==> forall k | 0 <= k < |items| :: dots.value[k] <==> currentIndex == At(k)
    {
      if |items| == 0 then None else Some(ActiveDots(currentIndex, |items|))
    }
  }
}
