/** The values the page derives from the vertical scroll offset on every scroll
    event: the reading-progress width and the navbar's "scrolled" mark
    (`initNavbarScroll`), the back-to-top button's visibility (`initBackToTop`),
    and the position an in-page link scrolls to (`initSmoothScroll`).
    Scroll offsets are real numbers of pixels; element geometry (`offsetTop`,
    `offsetHeight`, `scrollHeight`, `innerHeight`) is whole pixels. */
module Scroll {
  import opened Optional

  /** Offsets past this many pixels mark the navbar as scrolled. */
  const NavbarThreshold: real := 100.0

  /** The back-to-top button shows only within this many pixels of the bottom. */
  const BottomZone: real := 800.0

  function Min(a: real, b: real): real { if a <= b then a else b }
  function Max(a: real, b: real): real { if a >= b then a else b }

  /** How far the page can scroll: its full height less the viewport's. */
  function Scrollable(scrollHeight: int, innerHeight: int): int {
    scrollHeight - innerHeight
  }

  /** The progress bar width (a percentage) one scroll event writes, or `None`
      when the bar is missing or the page cannot scroll, in which case the
      width is left as it was. */
  function ProgressWidth(hasBar: bool, offset: real, scrollHeight: int, innerHeight: int): (w: Option<real>)
    ensures w.Some? <==> hasBar && Scrollable(scrollHeight, innerHeight) > 0
    ensures w.Some? ==> 0.0 <= w.value <= 100.0
    ensures w.Some? && offset <= 0.0 ==> w.value == 0.0
    ensures w.Some? && offset >= Scrollable(scrollHeight, innerHeight) as real ==> w.value == 100.0
    ensures w.Some? && 0.0 <= offset <= Scrollable(scrollHeight, innerHeight) as real ==>
              w.value * Scrollable(scrollHeight, innerHeight) as real == offset * 100.0
  {
    var docHeight := Scrollable(scrollHeight, innerHeight);
    if hasBar && docHeight > 0 then
      var d := docHeight as real;
      var ratio := offset / d;
      assert offset >= d ==> ratio >= 1.0 by {
        if offset >= d { assert ratio * d == offset; }
      }
      assert offset <= 0.0 ==> ratio <= 0.0 by {
        if offset <= 0.0 { assert ratio * d == offset; }
      }
      Some(Min(100.0, Max(0.0, ratio * 100.0)))
    else
      None
  }

  /** Scrolling further down never shrinks the progress bar. */
  lemma ProgressMonotone(hasBar: bool, o1: real, o2: real, scrollHeight: int, innerHeight: int)
    requires o1 <= o2
    requires ProgressWidth(hasBar, o1, scrollHeight, innerHeight).Some?
    ensures ProgressWidth(hasBar, o2, scrollHeight, innerHeight).Some?
    ensures ProgressWidth(hasBar, o1, scrollHeight, innerHeight).value
              <= ProgressWidth(hasBar, o2, scrollHeight, innerHeight).value
  {
    var d := Scrollable(scrollHeight, innerHeight) as real;
    assert (o2 - o1) / d >= 0.0;
    assert o1 / d <= o2 / d by {
      assert o2 / d - o1 / d == (o2 - o1) / d;
    }
  }

  /** The navbar's appearance: the "scrolled" mark and the progress bar width
      (`None` until a scroll event first writes it). */
  datatype NavbarView = NavbarView(scrolled: bool, progressWidth: Option<real>)

  /** `handleScroll` of `initNavbarScroll`. */
  function NavbarOnScroll(v: NavbarView, hasBar: bool, offset: real, scrollHeight: int, innerHeight: int): (v': NavbarView)
    ensures v'.scrolled <==> offset > NavbarThreshold
    ensures !hasBar || Scrollable(scrollHeight, innerHeight) <= 0 ==> v'.progressWidth == v.progressWidth
    ensures hasBar && Scrollable(scrollHeight, innerHeight) > 0 ==>
              v'.progressWidth == ProgressWidth(hasBar, offset, scrollHeight, innerHeight)
    ensures hasBar && Scrollable(scrollHeight, innerHeight) > 0 ==>
              v'.progressWidth.Some? && 0.0 <= v'.progressWidth.value <= 100.0
  {
    var width := ProgressWidth(hasBar, offset, scrollHeight, innerHeight);
    NavbarView(offset > NavbarThreshold, if width.Some? then width else v.progressWidth)
  }

  /** Handling the same scroll position again changes nothing: the view depends
      on the offset and the page geometry, not on what was shown before
      (except a width the guard leaves untouched). */
  lemma NavbarOnScrollIdempotent(v: NavbarView, hasBar: bool, offset: real, scrollHeight: int, innerHeight: int)
    ensures var once := NavbarOnScroll(v, hasBar, offset, scrollHeight, innerHeight);
            NavbarOnScroll(once, hasBar, offset, scrollHeight, innerHeight) == once
  {
  }

  /** Once the navbar is marked scrolled, it stays so further down. */
  lemma NavbarScrolledUpward(v: NavbarView, hasBar: bool, o1: real, o2: real, scrollHeight: int, innerHeight: int)
    requires o1 <= o2
    requires NavbarOnScroll(v, hasBar, o1, scrollHeight, innerHeight).scrolled
    ensures NavbarOnScroll(v, hasBar, o2, scrollHeight, innerHeight).scrolled
  {
  }

  /** `window.pageYOffset || document.documentElement.scrollTop`: a zero page
      offset (falsy) falls back to the root element's scroll position. */
  function ScrollY(pageYOffset: real, scrollTop: real): real {
    if pageYOffset != 0.0 then pageYOffset else scrollTop
  }

  /** `handleScroll` of `initBackToTop`: the button is visible once the page is
      scrolled more than one viewport height and less than 800 pixels remain
      to the bottom. */
  function BackToTopVisible(pageYOffset: real, scrollTop: real, scrollHeight: int, innerHeight: int): (visible: bool)
    ensures visible <==> ScrollY(pageYOffset, scrollTop) > innerHeight as real
                         && Scrollable(scrollHeight, innerHeight) as real - ScrollY(pageYOffset, scrollTop) < BottomZone
  {
    var y := ScrollY(pageYOffset, scrollTop);
    var distanceToBottom := Scrollable(scrollHeight, innerHeight) as real - y;
    y > innerHeight as real && distanceToBottom < BottomZone
  }

  /** At the top of the page the button is hidden. */
  lemma BackToTopHiddenAtTop(scrollHeight: int, innerHeight: int)
    requires innerHeight >= 0
    ensures !BackToTopVisible(0.0, 0.0, scrollHeight, innerHeight)
  {
  }

  /** Once visible, the button stays visible as the page scrolls further down. */
  lemma BackToTopUpward(y1: real, y2: real, scrollHeight: int, innerHeight: int)
    requires 0.0 < y1 <= y2
    requires BackToTopVisible(y1, y1, scrollHeight, innerHeight)
    ensures BackToTopVisible(y2, y2, scrollHeight, innerHeight)
  {
  }

  /** The position an in-page link scrolls to: the target section's top less
      the fixed navbar's height, so the section starts just below the navbar;
      nothing when the link's target is not on the page. */
  function AnchorTarget(targetTop: Option<int>, navbarHeight: int): (position: Option<int>)
    ensures position.Some? <==> targetTop.Some?
    ensures position.Some? ==> position.value + navbarHeight == targetTop.value
  {
    match targetTop
    case None => None
    case Some(top) => Some(top - navbarHeight)
  }
}
