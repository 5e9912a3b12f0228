/**
 * The department carousel: a current slide index moved by the previous and next buttons
 * (wrapping around) and set directly by its dots. With no slides at all the script's
 * arithmetic divides by zero and the index becomes NaN, which absorbs every later step
 * except a dot click.
 */
module Slider {

  /** The value of `currentSlide`: a slide index, or NaN. */
  datatype SlideIndex = At(i: nat) | NaN

  /** `(currentSlide + 1) % slides.length`. The operands are never negative, so the
      script's truncating remainder is Dafny's `%`. */
  function NextSlide(c: SlideIndex, count: nat): (r: SlideIndex)
    ensures count > 0 && c.At? ==> r.At? && r.i < count
  {
    match c
    case NaN => NaN
    case At(i) => if count == 0 then NaN else At((i + 1) % count)
  }

  /** `(currentSlide - 1 + slides.length) % slides.length`. */
  function PrevSlide(c: SlideIndex, count: nat): (r: SlideIndex)
    ensures count > 0 && c.At? ==> r.At? && r.i < count
  {
    match c
    case NaN => NaN
    case At(i) => if count == 0 then NaN else At((i - 1 + count) % count)
  }

  /** Previous undoes next and next undoes previous on every slide, and both wrap round:
      next from the last slide is the first, previous from the first is the last. */
  lemma PrevNextInverse(i: nat, count: nat)
    requires i < count
    ensures PrevSlide(NextSlide(At(i), count), count) == At(i)
    ensures NextSlide(PrevSlide(At(i), count), count) == At(i)
    ensures NextSlide(At(count - 1), count) == At(0)
    ensures PrevSlide(At(0), count) == At(count - 1)
  {
    ModUnique(count, count, 1, 0);
    ModUnique(count - 1, count, 0, count - 1);
    ModUnique(i, count, 0, i);
    if i + 1 < count {
      ModUnique(i + 1, count, 0, i + 1);
      ModUnique(i + count, count, 1, i);
    }
    if i > 0 {
      ModUnique(i - 1 + count, count, 1, i - 1);
    }
  }

  /** The index after `k` presses of next (or `k` autoplay ticks). */
  function Advance(c: SlideIndex, count: nat, k: nat): (r: SlideIndex)
    ensures count > 0 && c.At? ==> r.At? && (k > 0 || c.i < count ==> r.i < count)
    ensures c.NaN? || count == 0 ==> (r.NaN? <==> c.NaN? || k > 0)
    decreases k
  {
    if k == 0 then c else NextSlide(Advance(c, count, k - 1), count)
  }

  /** From the first slide, `k` steps forward land on slide `k mod count`. */
  lemma {:induction false} AdvanceFromFirst(count: nat, k: nat)
    requires count > 0
    ensures Advance(At(0), count, k) == At(k % count)
    decreases k
  {
    if k > 0 {
      AdvanceFromFirst(count, k - 1);
      ModSucc(k - 1, count);
      var j := (k - 1) % count;
      if j + 1 < count {
        ModUnique(j + 1, count, 0, j + 1);
      } else {
        ModUnique(j + 1, count, 1, 0);
      }
    }
  }

  /** Adding one to a number adds one to its remainder, wrapping to 0 at `n`. */
  lemma ModSucc(x: nat, n: nat)
    requires n > 0
    ensures (x + 1) % n == if x % n + 1 < n then x % n + 1 else 0
  {
    var q, j := x / n, x % n;
    assert x + 1 == q * n + (j + 1);
    if j + 1 < n {
      ModUnique(x + 1, n, q, j + 1);
    } else {
      assert x + 1 == (q + 1) * n + 0;
      ModUnique(x + 1, n, q + 1, 0);
    }
  }

  /** `a * n >= n` for positive `a` and `n`. */
  lemma MulAtLeast(a: int, n: int)
    requires a >= 1 && n > 0
    ensures a * n >= n
  {
    var b := a - 1;
    assert a * n == b * n + n;
    assert b * n >= 0;
  }

  /** The remainder is determined by any quotient-remainder decomposition. */
  lemma ModUnique(x: int, n: int, q: int, r: int)
    requires n > 0 && 0 <= r < n && x == q * n + r
    ensures x % n == r
  {
    var q', r' := x / n, x % n;
    assert x == q' * n + r';
    assert (q - q') * n == r' - r by {
      assert q * n - q' * n == (q - q') * n;
    }
    if q > q' {
      MulAtLeast(q - q', n);
    } else if q < q' {
      MulAtLeast(q' - q, n);
    }
  }

  class DeptSlider {
    /** `slides.length` and `dots.length`, fixed when the carousel is set up. */
    const slideCount: nat
    const dotCount: nat
    var current: SlideIndex

    /** With at least one slide the index is a number, on a slide or (after a dot click
        when there are more dots than slides) on a dot. */
    ghost predicate Valid()
      reads this
    {
      slideCount > 0 ==> current.At? && (current.i < slideCount || current.i < dotCount)
    }

    constructor (slides: nat, dots: nat)
      ensures Valid()
      ensures slideCount == slides && dotCount == dots && current == At(0)
    {
      slideCount := slides;
      dotCount := dots;
      current := At(0);
    }

    /** The previous button. */
    method Prev()
      requires Valid()
      modifies this
      ensures Valid()
      ensures current == PrevSlide(old(current), slideCount)
      ensures slideCount > 0 ==> current.i < slideCount
    {
      current := PrevSlide(current, slideCount);
    }

    /** The next button; the 5-second autoplay tick performs the same step. */
    method Next()
      requires Valid()
      modifies this
      ensures Valid()
      ensures current == NextSlide(old(current), slideCount)
      ensures slideCount > 0 ==> current.i < slideCount
    {
      current := NextSlide(current, slideCount);
    }

    /** A click on dot `index`. */
    method DotClick(index: nat)
      requires Valid() && index < dotCount
      modifies this
      ensures Valid()
      ensures current == At(index)
    {
      current := At(index);
    }

    /** Whether dot `index` carries the `active` class (`index === currentSlide`); NaN
        equals no index. */
    predicate DotActive(index: nat)
      reads this
    {
      current == At(index)
    }

    /** With as many dots as slides, exactly one dot is lit: the one of the current slide.
        `Valid` holds after every button press and dot click, so this is true throughout. */
    lemma OneDotActive()
      requires Valid() && 0 < slideCount == dotCount
      ensures current.At? && current.i < dotCount && DotActive(current.i)
      ensures forall d: nat :: d < dotCount && DotActive(d) ==> d == current.i
    {
    }
  }
}
