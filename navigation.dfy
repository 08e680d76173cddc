/** `initNavigation` in script.js: the header's `shrink` class, the mobile menu
    and its `aria-expanded` attribute, same-page anchor clicks, and the
    highlighting of the navigation link that belongs to the section under the
    viewport. Layout values the browser computes (offsets and heights) are
    parameters of the handlers that read them. */
module Navigation {
  import opened Dom

  /** The header carries `shrink` exactly above this scroll offset. */
  const ShrinkOffset := 100
  /** How far below the top of the viewport the section under it is probed. */
  const ProbeOffset := 150

  predicate HeaderShrinks(offset: int)
  {
    offset > ShrinkOffset
  }

  /** A `section[id]` of the page: its id, `offsetTop` and `offsetHeight`. */
  datatype Section = Section(id: string, top: int, height: int)

  /** A link of `.nav-link, #mobile-menu a`: its `href` and whether it has the
      `active` class. */
  datatype NavLink = NavLink(href: string, active: bool)

  /** The half-open band `[top, top + height)` of a section contains `pos`. */
  predicate Covers(s: Section, pos: int)
  {
    s.top <= pos < s.top + s.height
  }

  /** The href that points at the element with the given id. */
  function Anchor(id: string): string
  {
    "#" + id
  }

  /** One pass of the inner loop: every link loses `active`, then regains it
      when its href is the anchor of `id`. */
  function Highlight(links: seq<NavLink>, id: string): (r: seq<NavLink>)
    ensures |r| == |links|
  {
    seq(|links|, i requires 0 <= i < |links| => links[i].(active := links[i].href == Anchor(id)))
  }

  /** The outer loop over `sections`, in document order: each section that
      covers `pos` re-runs the inner loop with its id. */
  function ScrollPass(links: seq<NavLink>, sections: seq<Section>, pos: int): (r: seq<NavLink>)
    ensures |r| == |links|
  {
    if sections == [] then links
    else
      var before := ScrollPass(links, sections[..|sections| - 1], pos);
      var last := sections[|sections| - 1];
      if Covers(last, pos) then Highlight(before, last.id) else before
  }

  /** The index of the last section, in document order, whose band contains
      `pos`; `None` when no band does. */
  function LastCovering(sections: seq<Section>, pos: int): (r: Option<nat>)
    ensures r.None? <==> forall k :: 0 <= k < |sections| ==> !Covers(sections[k], pos)
    ensures r.Some? ==> r.value < |sections| && Covers(sections[r.value], pos)
                        && forall k :: r.value < k < |sections| ==> !Covers(sections[k], pos)
  {
    if sections == [] then None
    else if Covers(sections[|sections| - 1], pos) then Some(|sections| - 1)
    else LastCovering(sections[..|sections| - 1], pos)
  }

  /** The result of a highlighting pass depends only on the hrefs, so a later
      pass overrides an earlier one entirely. */
  lemma HighlightOverrides(links: seq<NavLink>, a: string, b: string)
    ensures Highlight(Highlight(links, a), b) == Highlight(links, b)
  {
  }

  /** The nested loops leave the links as one highlighting pass for the last
      covering section would, and untouched when no section covers `pos`. */
  lemma {:induction false} ScrollPassHighlightsLast(links: seq<NavLink>, sections: seq<Section>, pos: int)
    ensures ScrollPass(links, sections, pos) ==
              match LastCovering(sections, pos)
              case None => links
              case Some(k) => Highlight(links, sections[k].id)
  {
    if sections != [] {
      var init := sections[..|sections| - 1];
      ScrollPassHighlightsLast(links, init, pos);
      var last := sections[|sections| - 1];
      if Covers(last, pos) {
        match LastCovering(init, pos)
        case None =>
        case Some(k) => HighlightOverrides(links, init[k].id, last.id);
      } else {
        match LastCovering(init, pos)
        case None =>
        case Some(k) => assert init[k] == sections[k];
      }
    }
  }

  /** Reading the result: when some section covers `pos`, the active links are
      exactly those pointing at the last covering section; otherwise no link
      changes. Hrefs never change. */
  lemma ScrollPassActiveLinks(links: seq<NavLink>, sections: seq<Section>, pos: int)
    ensures var r := ScrollPass(links, sections, pos);
            forall i :: 0 <= i < |links| ==>
              r[i].href == links[i].href
              && (LastCovering(sections, pos).None? ==> r[i] == links[i])
              && (LastCovering(sections, pos).Some? ==>
                    (r[i].active <==> links[i].href == Anchor(sections[LastCovering(sections, pos).value].id)))
  {
    ScrollPassHighlightsLast(links, sections, pos);
  }

  /** The navigation state of the page. */
  class Nav {
    var headerShrunk: bool
    /** Written by the scroll handler and never read. */
    var lastScroll: int
    var menuOpen: bool
    var ariaExpanded: string
    /** The target of the last smooth `window.scrollTo` the handlers asked for. */
    var scrollRequest: Option<int>
    const links: array<NavLink>

    constructor (links: array<NavLink>)
      ensures this.links == links
      ensures !headerShrunk && lastScroll == 0
      ensures !menuOpen && ariaExpanded == "false"
      ensures scrollRequest == None
    {
      this.links := links;
      headerShrunk, lastScroll := false, 0;
      menuOpen, ariaExpanded := false, "false";
      scrollRequest := None;
    }

    /** The header's scroll listener: `shrink` depends on the current offset
        alone. */
    method OnScrollHeader(offset: int)
      modifies this
      ensures headerShrunk == HeaderShrinks(offset) && lastScroll == offset
      ensures menuOpen == old(menuOpen) && ariaExpanded == old(ariaExpanded)
      ensures scrollRequest == old(scrollRequest)
    {
      if offset > ShrinkOffset {
        headerShrunk := true;
      } else {
        headerShrunk := false;
      }
      lastScroll := offset;
    }

    /** The mobile menu button: flips `open` and mirrors it in `aria-expanded`. */
    method ToggleMenu()
      modifies this
      ensures menuOpen == !old(menuOpen) && ariaExpanded == BoolText(menuOpen)
      ensures headerShrunk == old(headerShrunk) && lastScroll == old(lastScroll)
      ensures scrollRequest == old(scrollRequest)
    {
      menuOpen := !menuOpen;
      var isOpen := menuOpen;
      ariaExpanded := BoolText(isOpen);
    }

    /** A click on link `i`. An href `#id` whose element exists (in `tops`,
        the page's `offsetTop` by id) asks for a scroll to that element's top
        minus the header's height and closes the menu; `aria-expanded` is not
        touched. Any other href changes nothing here. `getElementById('')`
        finds nothing, so a bare `#` changes nothing either. */
    method ClickLink(i: nat, headerHeight: int, tops: map<string, int>)
      requires i < links.Length
      modifies this
      ensures var href := links[i].href;
              if |href| > 1 && href[0] == '#' && href[1..] in tops then
                scrollRequest == Some(tops[href[1..]] - headerHeight) && !menuOpen
              else
                scrollRequest == old(scrollRequest) && menuOpen == old(menuOpen)
      ensures ariaExpanded == old(ariaExpanded)
      ensures headerShrunk == old(headerShrunk) && lastScroll == old(lastScroll)
    {
      var href := links[i].href;
      if |href| > 0 && href[0] == '#' {
        var targetId := href[1..];
        if targetId != "" && targetId in tops {
          var targetPosition := tops[targetId] - headerHeight;
          scrollRequest := Some(targetPosition);
          if menuOpen {
            menuOpen := false;
          }
        }
      }
    }

    /** The same click with `aria-expanded` kept in step with the menu. */
    method ClickLinkSynced(i: nat, headerHeight: int, tops: map<string, int>)
      requires i < links.Length
      requires ariaExpanded == BoolText(menuOpen)
      modifies this
      ensures ariaExpanded == BoolText(menuOpen)
      ensures var href := links[i].href;
              if |href| > 1 && href[0] == '#' && href[1..] in tops then
                scrollRequest == Some(tops[href[1..]] - headerHeight) && !menuOpen
              else
                scrollRequest == old(scrollRequest) && menuOpen == old(menuOpen)
      ensures headerShrunk == old(headerShrunk) && lastScroll == old(lastScroll)
    {
      ClickLink(i, headerHeight, tops);
      ariaExpanded := BoolText(menuOpen);
    }

    /** The highlighting scroll listener, as the nested loops of the source:
        for each section whose band contains `offset + 150`, clear `active` on
        every link and set it on the links pointing at that section. */
    method OnScrollHighlight(offset: int, sections: seq<Section>)
      modifies links
      ensures links[..] == ScrollPass(old(links[..]), sections, offset + ProbeOffset)
      ensures forall i :: 0 <= i < links.Length ==> links[i].href == old(links[i].href)
      ensures LastCovering(sections, offset + ProbeOffset).None? ==> links[..] == old(links[..])
      ensures LastCovering(sections, offset + ProbeOffset).Some? ==>
                var id := sections[LastCovering(sections, offset + ProbeOffset).value].id;
                forall i :: 0 <= i < links.Length ==> (links[i].active <==> links[i].href == Anchor(id))
    {
      var scrollPos := offset + ProbeOffset;
      ghost var start := links[..];
      var s := 0;
      while s < |sections|
        invariant 0 <= s <= |sections|
        invariant links[..] == ScrollPass(start, sections[..s], scrollPos)
      {
        var section := sections[s];
        if section.top <= scrollPos < section.top + section.height {
          HighlightLinks(section.id);
        }
        assert sections[..s + 1][..s] == sections[..s];
        s := s + 1;
      }
      assert sections[..s] == sections;
      ScrollPassActiveLinks(start, sections, scrollPos);
    }

    /** The inner loop for one covering section. */
    method HighlightLinks(id: string)
      modifies links
      ensures links[..] == Highlight(old(links[..]), id)
    {
      var k := 0;
      while k < links.Length
        invariant 0 <= k <= links.Length
        invariant forall j :: 0 <= j < k ==> links[j] == old(links[j]).(active := old(links[j]).href == Anchor(id))
        invariant forall j :: k <= j < links.Length ==> links[j] == old(links[j])
      {
        links[k] := links[k].(active := false);
        if links[k].href == "#" + id {
          links[k] := links[k].(active := true);
        }
        k := k + 1;
      }
    }
  }

  /** Opening the menu and then following an anchor link leaves the menu
      closed while `aria-expanded` still says "true". */
  method StaleAriaAfterLinkClick() returns (nav: Nav)
    ensures !nav.menuOpen && nav.ariaExpanded == "true"
  {
    var links := new NavLink[1](_ => NavLink("#contact", false));
    nav := new Nav(links);
    nav.ToggleMenu();
    nav.ClickLink(0, 80, map["contact" := 2000]);
    assert links[0].href[1..] == "contact";
  }

  /** Two clicks on the menu button restore the menu and leave the attribute
      mirroring it; from a state where the attribute already mirrored the
      menu, as at load, the attribute is restored too. */
  method ToggleTwiceRestores(nav: Nav)
    modifies nav
    ensures nav.menuOpen == old(nav.menuOpen) && nav.ariaExpanded == BoolText(nav.menuOpen)
    ensures old(nav.ariaExpanded == BoolText(nav.menuOpen)) ==> nav.ariaExpanded == old(nav.ariaExpanded)
  {
    nav.ToggleMenu();
    nav.ToggleMenu();
  }
}
