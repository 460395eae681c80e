/** The slideshow of main.js: a counter `currentIndex` over `slideCount`
    slides, advanced by one, cyclically, on every timer tick. The timer
    itself and the CSS class changes on the slides are not modelled. */
module Carousel {

  /** `(currentIndex + 1) % slideCount`: the next slide, wrapping from the
      last slide to the first. */
  function NextIndex(i: nat, slideCount: nat): (r: nat)
    requires i < slideCount
    ensures r < slideCount
    ensures r == if i == slideCount - 1 then 0 else i + 1
  {
    (i + 1) % slideCount
  }

  /** The index after m ticks from index i. */
  function Advance(i: nat, slideCount: nat, m: nat): (r: nat)
    requires i < slideCount
    ensures r < slideCount
  {
    if m == 0 then i else NextIndex(Advance(i, slideCount, m - 1), slideCount)
  }

  /** Before the wrap-around, m ticks move the index m places forward. */
  lemma {:induction false} AdvanceLinear(i: nat, slideCount: nat, m: nat)
    requires i + m < slideCount
    ensures Advance(i, slideCount, m) == i + m
  {
    if m > 0 {
      AdvanceLinear(i, slideCount, m - 1);
    }
  }

  /** a + b ticks are a ticks followed by b ticks. */
  lemma {:induction false} AdvanceSplit(i: nat, slideCount: nat, a: nat, b: nat)
    requires i < slideCount
    ensures Advance(i, slideCount, a + b) == Advance(Advance(i, slideCount, a), slideCount, b)
  {
    if b > 0 {
      AdvanceSplit(i, slideCount, a, b - 1);
    }
  }

  /** Every slide comes round again after slideCount ticks. */
  lemma FullCycle(i: nat, slideCount: nat)
    requires i < slideCount
    ensures Advance(i, slideCount, slideCount) == i
  {
    var n := slideCount;
    AdvanceSplit(i, n, n - 1 - i, i + 1);
    AdvanceLinear(i, n, n - 1 - i);
    assert Advance(n - 1, n, 1) == 0;
    AdvanceSplit(n - 1, n, 1, i);
    AdvanceLinear(0, n, i);
  }

  /** ... and not before: fewer ticks never lead back to the same slide. */
  lemma NoEarlyReturn(i: nat, slideCount: nat, m: nat)
    requires i < slideCount && 0 < m < slideCount
    ensures Advance(i, slideCount, m) != i
  {
    var n := slideCount;
    if i + m < n {
      AdvanceLinear(i, n, m);
    } else {
      var r := m - (n - i);
      AdvanceSplit(i, n, n - 1 - i, r + 1);
      AdvanceLinear(i, n, n - 1 - i);
      AdvanceSplit(n - 1, n, 1, r);
      AdvanceLinear(0, n, r);
    }
  }

  /** The carousel state. The index starts at 0 and the ticking only
      happens when there is more than one slide. */
  class Slideshow {
    const slideCount: nat
    var currentIndex: nat

    /** The index names a slide, or is the initial 0 when there are none. */
    ghost predicate Valid()
      reads this
    {
      currentIndex == 0 || currentIndex < slideCount
    }

    constructor (slideCount: nat)
      ensures Valid()
      ensures this.slideCount == slideCount && currentIndex == 0
    {
      this.slideCount := slideCount;
      currentIndex := 0;
    }

    /** The body of the interval callback: advances the active slide. */
    method Tick()
      requires Valid() && slideCount > 1
      modifies this
      ensures Valid()
      ensures currentIndex < slideCount
      ensures currentIndex == NextIndex(old(currentIndex), slideCount)
    {
      currentIndex := (currentIndex + 1) % slideCount;
    }
  }
}
