/** The announcement slider: a fixed list of slides, an interval that moves
    to the next slide, dots that jump to a slide, and the rule that only the
    current slide is shown and only its dot is active. */
module Slider {

  /** The component's fixed announcement list has two entries. */
  const SlideCount: nat := 2

  /** One interval tick: `(prev + 1) % n`, with `prev` never negative. */
  function Tick(prev: nat, n: nat): (r: nat)
    requires n > 0
    ensures r < n
    ensures prev < n - 1 ==> r == prev + 1
    ensures prev == n - 1 ==> r == 0
  {
    (prev + 1) % n
  }

  /** `k` ticks in a row. */
  function Ticks(start: nat, n: nat, k: nat): nat
    requires n > 0
  {
    if k == 0 then start else Tick(Ticks(start, n, k - 1), n)
  }

  /** Ticks compose: `a` ticks then `b` ticks are `a + b` ticks. */
  lemma {:induction false} TicksCompose(start: nat, n: nat, a: nat, b: nat)
    requires n > 0
    ensures Ticks(Ticks(start, n, a), n, b) == Ticks(start, n, a + b)
    decreases b
  {
    if b > 0 {
      TicksCompose(start, n, a, b - 1);
    }
  }

  /** Below the last slide, ticks count up one by one. */
  lemma {:induction false} TicksCountUp(start: nat, n: nat, k: nat)
    requires n > 0 && start + k < n
    ensures Ticks(start, n, k) == start + k
    decreases k
  {
    if k > 0 {
      TicksCountUp(start, n, k - 1);
    }
  }

  /** From a valid slide, every tick count stays in range, and `n` ticks come
      back to the start. */
  lemma TicksCycle(start: nat, n: nat, k: nat)
    requires n > 0 && start < n
    ensures Ticks(start, n, k) < n
    ensures Ticks(start, n, n) == start
  {
    if k > 0 {
      assert Ticks(start, n, k) == Tick(Ticks(start, n, k - 1), n);
    }
    var m := n - 1 - start;
    TicksCountUp(start, n, m);
    assert Ticks(start, n, m + 1) == 0;
    TicksCountUp(0, n, start);
    TicksCompose(start, n, m + 1, start);
  }

  /** `showSlide(index)`: the chosen slide becomes current. */
  function ShowSlide(current: nat, index: nat): (r: nat)
    ensures r == index
  {
    index
  }

  /** Slide `i` is displayed (`display: flex`) and dot `i` is active exactly
      when `i` is the current slide. */
  predicate Shown(i: nat, current: nat)
  {
    i == current
  }

  /** The displayed slides among the `n` rendered ones. */
  function ShownSlides(current: nat, n: nat): (r: set<nat>)
    ensures forall i: nat :: i in r <==> i < n && Shown(i, current)
  {
    set i: nat | i < n && Shown(i, current)
  }

  /** With a valid current slide exactly one slide is shown (and one dot is
      active): the current one. */
  lemma ExactlyOneShown(current: nat, n: nat)
    requires current < n
    ensures ShownSlides(current, n) == {current}
    ensures |ShownSlides(current, n)| == 1
  {
    assert ShownSlides(current, n) == {current};
  }

  /** A dot click followed by any number of ticks keeps exactly one slide shown. */
  lemma ShownAfterClickAndTicks(current: nat, index: nat, k: nat)
    requires index < SlideCount
    ensures |ShownSlides(Ticks(ShowSlide(current, index), SlideCount, k), SlideCount)| == 1
  {
    TicksCycle(index, SlideCount, k);
    ExactlyOneShown(Ticks(index, SlideCount, k), SlideCount);
  }
}
