/**
 * The navigation chrome that `updateNavigation` recomputes after every slide change:
 * the progress bar, the row of navigation dots, the visibility of the global navigation
 * bar and the displayed page number. Everything here depends only on the current
 * slide index and on the slide list.
 */
module NavView {
  import JsText
  import opened Slides

  /** One navigation dot: whether it carries the `active` class, and the slide id its
      click handler passes to `showPage`. */
  datatype Dot = Dot(active: bool, target: string)

  /** The rendered navigation chrome. */
  datatype View = View(progress: real, dots: seq<Dot>, globalNavVisible: bool, pageNumber: nat)

  /** Width of the progress bar in percent, `currentPage / (pages.length - 1) * 100`,
      computed exactly. */
  function Progress(current: int, count: int): (p: real)
    requires count >= 2
    ensures p == 0.0 <==> current == 0
    ensures p == 100.0 <==> current == count - 1
  {
    (current as real / (count - 1) as real) * 100.0
  }

  /** The bar is empty on the loading slide and full on the ending slide. */
  lemma ProgressEnds(count: int)
    requires count >= 2
    ensures Progress(0, count) == 0.0
    ensures Progress(count - 1, count) == 100.0
  {
  }

  /** Moving to a later slide always widens the bar. */
  lemma ProgressStrictlyIncreasing(a: int, b: int, count: int)
    requires count >= 2 && a < b
    ensures Progress(a, count) < Progress(b, count)
  {
    var d := (count - 1) as real;
    assert (a as real) / d < (b as real) / d;
  }

  /** On every registered slide the bar is between empty and full. */
  lemma ProgressBounds(current: int, count: int)
    requires 2 <= count && 0 <= current < count
    ensures 0.0 <= Progress(current, count) <= 100.0
  {
    ProgressEnds(count);
    if current > 0 {
      ProgressStrictlyIncreasing(0, current, count);
    }
    if current < count - 1 {
      ProgressStrictlyIncreasing(current, count - 1, count);
    }
  }

  /** The number of dots: one per index strictly between the two sentinels. */
  function DotCount(count: int): nat {
    if count < 2 then 0 else count - 2
  }

  /** `dots` is the row the loop builds: dot `k` stands for slide index `k + 1`, is active
      exactly when that index is the current one, and jumps to the id at that index. */
  predicate DotsMatch(dots: seq<Dot>, current: int, pages: seq<string>) {
    |dots| == DotCount(|pages|) &&
    forall k :: 0 <= k < |dots| ==> dots[k] == Dot(k + 1 == current, pages[k + 1])
  }

  /** The dot loop: the container is cleared, then dots for `i = 1 .. pages.length - 2`
      are appended in order. */
  method BuildDots(current: int, pages: seq<string>) returns (dots: seq<Dot>)
    ensures DotsMatch(dots, current, pages)
  {
    dots := [];
    var i := 1;
    while i < |pages| - 1
      invariant 1 <= i && i - 1 <= DotCount(|pages|)
      invariant |dots| == i - 1
      invariant forall k :: 0 <= k < |dots| ==> dots[k] == Dot(k + 1 == current, pages[k + 1])
    {
      dots := dots + [Dot(i == current, pages[i])];
      i := i + 1;
    }
  }

  /** Global navigation is hidden on the loading slide, the cover and the ending slide. */
  function GlobalNavVisible(current: int, count: int): (visible: bool)
    ensures 0 <= current < count ==> (visible <==> 2 <= current <= count - 2)
  {
    !(current == 0 || current == 1 || current == count - 1)
  }

  /** The page number shown to the reader, `Math.max(0, currentPage - 1)`. */
  function PageNumber(current: int): (n: nat)
    ensures current >= 2 ==> n + 1 == current
    ensures current <= 1 ==> n == 0
  {
    if current - 1 > 0 then current - 1 else 0
  }

  /** `view` is what `updateNavigation` renders for slide index `current`. */
  predicate Renders(view: View, current: int, pages: seq<string>)
    requires |pages| >= 2
  {
    view.progress == Progress(current, |pages|) &&
    DotsMatch(view.dots, current, pages) &&
    view.globalNavVisible == GlobalNavVisible(current, |pages|) &&
    view.pageNumber == PageNumber(current)
  }

  /** At most one dot is active, and one is active exactly when the current slide is the
      cover or a content slide; on the loading and ending sentinels no dot is lit. */
  lemma ActiveDotUnique(dots: seq<Dot>, current: int, pages: seq<string>)
    requires DotsMatch(dots, current, pages) && |pages| >= 2 && 0 <= current < |pages|
    ensures forall k :: 0 <= k < |dots| && dots[k].active ==> k == current - 1
    ensures (exists k :: 0 <= k < |dots| && dots[k].active) <==> 1 <= current <= |pages| - 2
  {
    if 1 <= current <= |pages| - 2 {
      assert dots[current - 1].active;
    }
  }

  /** With distinct ids, dot `k` jumps to slide index `k + 1`, and no dot targets a sentinel. */
  lemma DotTargets(dots: seq<Dot>, current: int, pages: seq<string>, k: int)
    requires DotsMatch(dots, current, pages) && Distinct(pages) && 0 <= k < |dots|
    ensures dots[k].target in pages
    ensures JsText.IndexOf(pages, dots[k].target) == k + 1
    ensures dots[k].target != pages[0] && dots[k].target != pages[|pages| - 1]
  {
    IndexOfDistinct(pages, k + 1);
  }

  /** On the registry, the global navigation bar shows exactly on the content slides. */
  lemma GlobalNavOnContentSlides(current: int)
    requires 0 <= current < |Pages|
    ensures GlobalNavVisible(current, |Pages|) <==> IsContentSlide(Pages[current])
  {
    PagesShape();
  }

  /** On the registry, the number shown on a content slide is the number in its id, and
      the cover and the loading slide both show 0. */
  lemma PageNumberMatchesId(current: int)
    requires 0 <= current < |Pages|
    ensures IsContentSlide(Pages[current]) ==> Pages[current] == "page" + JsText.NatToString(PageNumber(current))
    ensures current <= 1 ==> PageNumber(current) == 0
  {
    PagesShape();
    assert JsText.NatToString(10) == "10";
    assert JsText.NatToString(11) == "11";
  }
}
