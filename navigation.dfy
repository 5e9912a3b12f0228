/**
 * The navigation controller: the current slide index, the transition lock, the rendered
 * navigation chrome and the last touch-start point, with one method per event the
 * script reacts to. A transition takes the lock; while it is held every navigation
 * request is dropped, not queued. The 500 ms timer that frees the lock is the explicit
 * call `ReleaseLock`.
 */
module Navigation {
  import JsText
  import opened Wrappers
  import opened Slides
  import opened NavView
  import opened Input

  class Navigator {
    var currentPage: int
    var isAnimating: bool
    /** The navigation chrome as `updateNavigation` last rendered it; `None` before its first
        run, when the chrome is whatever the page's markup holds. */
    var view: Option<View>
    var touchStartX: real
    var touchStartY: real

    /** The index names a registered slide and the chrome, once drawn, shows that slide. */
    ghost predicate Valid()
      reads this
    {
      0 <= currentPage < |Pages| &&
      (view.Some? ==> |Pages| >= 2 && Renders(view.value, currentPage, Pages))
    }

    /** The state at script start: the loading slide, unlocked, touch origin at 0. */
    constructor ()
      ensures Valid()
      ensures currentPage == 0 && !isAnimating && view == None
      ensures touchStartX == 0.0 && touchStartY == 0.0
    {
      currentPage := 0;
      isAnimating := false;
      view := None;
      touchStartX := 0.0;
      touchStartY := 0.0;
    }

    /** `updateNavigation`: redraws the chrome for the current index. */
    method UpdateNavigation()
      requires 0 <= currentPage < |Pages|
      modifies this`view
      ensures view.Some? && Renders(view.value, currentPage, Pages)
    {
      var dots := BuildDots(currentPage, Pages);
      view := Some(View(Progress(currentPage, |Pages|), dots,
                        GlobalNavVisible(currentPage, |Pages|), PageNumber(currentPage)));
    }

    /** `showPage`: dropped while locked; otherwise takes the lock, moves to the slide with
        id `pageId` and redraws the chrome. The caller's timer later calls `ReleaseLock`. */
    method ShowPage(pageId: string)
      requires Valid() && Registered(pageId)
      modifies this`currentPage, this`isAnimating, this`view
      ensures Valid()
      ensures old(isAnimating) ==>
        isAnimating && currentPage == old(currentPage) && view == old(view)
      ensures !old(isAnimating) ==>
        isAnimating && currentPage == JsText.IndexOf(Pages, pageId) &&
        Pages[currentPage] == pageId && view.Some?
    {
      if !isAnimating {
        isAnimating := true;
        currentPage := JsText.IndexOf(Pages, pageId);
        UpdateNavigation();
      }
    }

    /** The transition timer firing: the lock is freed and nothing else changes. The timer
        exists only while the lock is held, as only a transition schedules it. */
    method ReleaseLock()
      requires Valid() && isAnimating
      modifies this`isAnimating
      ensures Valid() && !isAnimating
    {
      isAnimating := false;
    }

    /** The guarded relative move common to the touch and key handlers: show the next or
        previous slide when `RelativeTarget` allows it. */
    method MoveRelative(m: Move)
      requires Valid()
      modifies this`currentPage, this`isAnimating, this`view
      ensures Valid()
      ensures currentPage ==
        if old(isAnimating) then old(currentPage) else Step(old(currentPage), |Pages|, m)
      ensures isAnimating == (old(isAnimating) || RelativeTarget(old(currentPage), |Pages|, m).Some?)
      ensures (old(isAnimating) || RelativeTarget(old(currentPage), |Pages|, m).None?) ==> view == old(view)
      ensures !old(isAnimating) && RelativeTarget(old(currentPage), |Pages|, m).Some? ==> view.Some?
    {
      var target := RelativeTarget(currentPage, |Pages|, m);
      if target.Some? {
        PagesShape();
        IndexOfDistinct(Pages, target.value);
        ShowPage(Pages[target.value]);
      }
    }

    /** `touchstart`: records where the touch began (whether or not a transition runs). */
    method TouchStart(x: real, y: real)
      requires Valid()
      modifies this`touchStartX, this`touchStartY
      ensures Valid()
      ensures touchStartX == x && touchStartY == y
    {
      touchStartX := x;
      touchStartY := y;
    }

    /** `touchend`: ignored while locked; otherwise the swipe from the recorded start to
        this point is classified and, if it is a move, taken. */
    method TouchEnd(endX: real, endY: real)
      requires Valid()
      modifies this`currentPage, this`isAnimating, this`view
      ensures Valid()
      ensures var m := SwipeMove(touchStartX, touchStartY, endX, endY);
        currentPage == (if old(isAnimating) then old(currentPage) else Step(old(currentPage), |Pages|, m)) &&
        isAnimating == (old(isAnimating) || RelativeTarget(old(currentPage), |Pages|, m).Some?) &&
        (old(isAnimating) || RelativeTarget(old(currentPage), |Pages|, m).None? ==> view == old(view)) &&
        (!old(isAnimating) && RelativeTarget(old(currentPage), |Pages|, m).Some? ==> view.Some?)
    {
      if isAnimating {
        return;
      }
      var m := SwipeMove(touchStartX, touchStartY, endX, endY);
      MoveRelative(m);
    }

    /** `keydown`: ignored while locked; otherwise an arrow key suppresses the browser's
        default scrolling and requests the next or previous slide. */
    method KeyDown(key: string) returns (preventDefault: bool)
      requires Valid()
      modifies this`currentPage, this`isAnimating, this`view
      ensures Valid()
      ensures preventDefault == (!old(isAnimating) && IsArrowKey(key))
      ensures currentPage ==
        if old(isAnimating) then old(currentPage) else Step(old(currentPage), |Pages|, KeyMove(key))
      ensures isAnimating == (old(isAnimating) || RelativeTarget(old(currentPage), |Pages|, KeyMove(key)).Some?)
      ensures old(isAnimating) || RelativeTarget(old(currentPage), |Pages|, KeyMove(key)).None? ==>
        view == old(view)
      ensures !old(isAnimating) && RelativeTarget(old(currentPage), |Pages|, KeyMove(key)).Some? ==>
        view.Some?
    {
      preventDefault := false;
      if isAnimating {
        return;
      }
      if IsArrowKey(key) {
        preventDefault := true;
        MoveRelative(KeyMove(key));
      }
    }

    /** A click on the cover, outside the music control, opens the first content slide. */
    method CoverClick(onMusicControl: bool)
      requires Valid()
      modifies this`currentPage, this`isAnimating, this`view
      ensures Valid()
      ensures onMusicControl || old(isAnimating) ==>
        currentPage == old(currentPage) && isAnimating == old(isAnimating) && view == old(view)
      ensures !onMusicControl && !old(isAnimating) ==>
        isAnimating && Pages[currentPage] == "page1" && currentPage == 2 && view.Some?
    {
      if onMusicControl {
        return;
      }
      PagesShape();
      IndexOfDistinct(Pages, 2);
      ShowPage("page1");
    }

    /** The home button returns to the cover. */
    method HomeClick()
      requires Valid()
      modifies this`currentPage, this`isAnimating, this`view
      ensures Valid()
      ensures old(isAnimating) ==>
        currentPage == old(currentPage) && isAnimating == old(isAnimating) && view == old(view)
      ensures !old(isAnimating) ==>
        isAnimating && Pages[currentPage] == "cover" && currentPage == 1 && view.Some?
    {
      PagesShape();
      IndexOfDistinct(Pages, 1);
      ShowPage("cover");
    }

    /** A click on dot `k` of the drawn chrome jumps to the slide it stands for, index `k + 1`. */
    method DotClick(k: int)
      requires Valid() && view.Some? && 0 <= k < |view.value.dots|
      modifies this`currentPage, this`isAnimating, this`view
      ensures Valid()
      ensures old(isAnimating) ==>
        currentPage == old(currentPage) && isAnimating == old(isAnimating) && view == old(view)
      ensures !old(isAnimating) ==> isAnimating && currentPage == k + 1 && view.Some?
    {
      PagesShape();
      DotTargets(view.value.dots, currentPage, Pages, k);
      ShowPage(view.value.dots[k].target);
    }
  }

  /** A reading session: the home button opens the cover, a key press during that
      transition is dropped, and once the lock is released the same key moves on. */
  method ReadingSession() returns (nav: Navigator)
    ensures nav.Valid() && nav.currentPage == 2 && nav.isAnimating
  {
    nav := new Navigator();
    nav.HomeClick();
    assert nav.currentPage == 1;
    var prevented := nav.KeyDown("ArrowDown");
    assert !prevented && nav.currentPage == 1;
    nav.ReleaseLock();
    prevented := nav.KeyDown("ArrowDown");
    assert prevented;
  }
}
