/** `initScrollEffects` in script.js: the scroll hint fades out past 100 px and
    the back-to-top button shows past 500 px; the button scrolls to the top. */
module ScrollEffects {
  import opened Dom

  /** The scroll indicator carries `hidden` exactly above this offset. */
  const HintOffset := 100
  /** The back-to-top button carries `visible` exactly above this offset. */
  const BackToTopOffset := 500

  predicate HintHidden(offset: int)
  {
    offset > HintOffset
  }

  predicate BackToTopShown(offset: int)
  {
    offset > BackToTopOffset
  }

  class Effects {
    var hintHidden: bool
    var backToTopVisible: bool
    /** The target of the last smooth `window.scrollTo` the handlers asked for. */
    var scrollRequest: Option<int>

    constructor ()
      ensures !hintHidden && !backToTopVisible && scrollRequest == None
    {
      hintHidden, backToTopVisible, scrollRequest := false, false, None;
    }

    /** The two scroll listeners, in registration order. Both classes follow
        the current offset alone, whatever came before. The thresholds are
        nested, so the button is never visible while the hint is shown. */
    method OnScroll(offset: int)
      modifies this
      ensures hintHidden == HintHidden(offset)
      ensures backToTopVisible == BackToTopShown(offset)
      ensures backToTopVisible ==> hintHidden
      ensures scrollRequest == old(scrollRequest)
    {
      if offset > HintOffset {
        hintHidden := true;
      } else {
        hintHidden := false;
      }
      if offset > BackToTopOffset {
        backToTopVisible := true;
      } else {
        backToTopVisible := false;
      }
    }

    /** The back-to-top button asks for a smooth scroll to offset 0. */
    method ClickBackToTop()
      modifies this
      ensures scrollRequest == Some(0)
      ensures hintHidden == old(hintHidden) && backToTopVisible == old(backToTopVisible)
    {
      scrollRequest := Some(0);
    }
  }
}
