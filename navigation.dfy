/** The fixed navigation bar: it tracks which section the reader is in,
    changes its background once the page has scrolled, dispatches clicks
    on its entries and opens and closes the mobile menu. */
module Navigation {
  import opened Options
  import opened Text

  datatype NavItem = NavItem(name: string, href: string)

  /** The entries, in display order. */
  const NavItems: seq<NavItem> := [
    NavItem("Home", "#home"),
    NavItem("About", "#about"),
    NavItem("Services", "#services"),
    NavItem("Work", "#work"),
    NavItem("Gallery", "/gallery"),
    NavItem("Hobbies", "#hobbies"),
    NavItem("Contact", "#contact")
  ]

  /** Pixels of scrolling after which the bar gets its solid background. */
  const ScrollThreshold: int := 50
  /** Distance below the top of the viewport at which sections are probed. */
  const ProbeMargin: int := 100

  /** `item.href.substring(1)`: the id of the section an entry stands for. */
  function SectionId(href: string): string {
    DropFirst(href)
  }

  function SectionIdsOf(items: seq<NavItem>): (ids: seq<string>)
    ensures |ids| == |items|
    ensures forall k :: 0 <= k < |items| ==> ids[k] == SectionId(items[k].href)
  {
    seq(|items|, k requires 0 <= k < |items| => SectionId(items[k].href))
  }

  /** The ids probed on every scroll, in entry order. */
  function SectionIds(): seq<string> {
    SectionIdsOf(NavItems)
  }

  /** An element's box as `offsetTop` and `offsetHeight`. */
  datatype Element = Element(offsetTop: int, offsetHeight: int)

  /** The page as `document.getElementById` sees it: an id that is not a key
      has no element. */
  type Dom = map<string, Element>

  /** The element with id `id` exists and its half-open vertical range
      contains `probe`. */
  predicate Contains(dom: Dom, id: string, probe: int) {
    id in dom && dom[id].offsetTop <= probe < dom[id].offsetTop + dom[id].offsetHeight
  }

  /** The position of the first id whose element contains `probe`, if any. */
  function FirstHit(ids: seq<string>, dom: Dom, probe: int): (r: Option<nat>)
    ensures r.Some? ==> r.value < |ids| && Contains(dom, ids[r.value], probe)
    ensures r.Some? ==> forall j :: 0 <= j < r.value ==> !Contains(dom, ids[j], probe)
    ensures r.None? ==> forall j :: 0 <= j < |ids| ==> !Contains(dom, ids[j], probe)
  {
    if ids == [] then None
    else if Contains(dom, ids[0], probe) then Some(0)
    else
      match FirstHit(ids[1..], dom, probe)
      case None => None
      case Some(k) => Some(k + 1)
  }

  /** The scan of the scroll handler: walk the ids in order, skip those
      without an element, stop at the first element containing `probe`. */
  method ScanSections(ids: seq<string>, dom: Dom, probe: int) returns (hit: Option<nat>)
    ensures hit == FirstHit(ids, dom, probe)
  {
    hit := None;
    for i := 0 to |ids|
      invariant hit == None
      invariant forall j :: 0 <= j < i ==> !Contains(dom, ids[j], probe)
    {
      if ids[i] in dom {
        var element := dom[ids[i]];
        if probe >= element.offsetTop && probe < element.offsetTop + element.offsetHeight {
          hit := Some(i);
          break;
        }
      }
    }
  }

  /** The active section after a scroll to `scrollY`: the first section in
      entry order whose element contains the probe point, or the previous
      active section when none does. */
  function ActiveAfterScroll(previous: string, dom: Dom, scrollY: int): string {
    match FirstHit(SectionIds(), dom, scrollY + ProbeMargin)
    case Some(k) => SectionIds()[k]
    case None => previous
  }

  /** Without a section containing the probe point the active section stays
      where it was (there is no fallback to the top); otherwise it becomes
      the first such section in entry order. */
  lemma ActiveAfterScrollChoice(previous: string, dom: Dom, scrollY: int)
    ensures (forall k :: 0 <= k < |SectionIds()| ==> !Contains(dom, SectionIds()[k], scrollY + ProbeMargin)) ==>
      ActiveAfterScroll(previous, dom, scrollY) == previous
    ensures (exists k :: 0 <= k < |SectionIds()| && Contains(dom, SectionIds()[k], scrollY + ProbeMargin)) ==>
      exists k :: 0 <= k < |SectionIds()|
        && ActiveAfterScroll(previous, dom, scrollY) == SectionIds()[k]
        && Contains(dom, SectionIds()[k], scrollY + ProbeMargin)
        && forall j :: 0 <= j < k ==> !Contains(dom, SectionIds()[j], scrollY + ProbeMargin)
  {
    var hit := FirstHit(SectionIds(), dom, scrollY + ProbeMargin);
    if hit.Some? {
      var k := hit.value;
      assert ActiveAfterScroll(previous, dom, scrollY) == SectionIds()[k];
    }
  }

  /** What a click on an entry does besides closing the menu. */
  datatype NavAction =
    | PushRoute(route: string)    // `router.push(href)`
    | ScrollIntoView(id: string)  // smooth scroll to the element with that id
    | NoAction

  function ClickAction(href: string, dom: Dom): NavAction {
    if StartsWith(href, "/") then PushRoute(href)
    else if SectionId(href) in dom then ScrollIntoView(SectionId(href))
    else NoAction
  }

  /** A route (an href starting with `/`) is always navigated to and never
      scrolled to; any other href scrolls to the element whose id is the
      href without its first character, and does nothing when that element
      is missing. */
  lemma ClickActionDispatch(href: string, dom: Dom)
    ensures ClickAction(href, dom).PushRoute? <==> StartsWith(href, "/")
    ensures ClickAction(href, dom).PushRoute? ==> ClickAction(href, dom).route == href
    ensures ClickAction(href, dom).ScrollIntoView? <==> !StartsWith(href, "/") && SectionId(href) in dom
    ensures ClickAction(href, dom).ScrollIntoView? ==>
      ClickAction(href, dom).id == SectionId(href) && (href == [] || [href[0]] + SectionId(href) == href)
    ensures ClickAction(href, dom).NoAction? <==> !StartsWith(href, "/") && SectionId(href) !in dom
  {
  }

  /** The probed ids are the hrefs without their first character; the
      gallery page's route is probed as the id "gallery". */
  lemma SectionIdsValue()
    ensures SectionIds() == ["home", "about", "services", "work", "gallery", "hobbies", "contact"]
  {
  }

  /** Among the entries, only "Gallery" leaves the page; every other entry
      scrolls to its section when the page has it. */
  lemma EntryActions(dom: Dom)
    ensures forall k :: 0 <= k < |NavItems| ==>
      (ClickAction(NavItems[k].href, dom).PushRoute? <==> NavItems[k].name == "Gallery")
    ensures forall k :: 0 <= k < |NavItems| && NavItems[k].name != "Gallery" && SectionIds()[k] in dom ==>
      ClickAction(NavItems[k].href, dom) == ScrollIntoView(SectionIds()[k])
  {
    SectionIdsValue();
  }

  /** An entry is highlighted when the active section is its id. */
  predicate IsActive(activeSection: string, item: NavItem) {
    activeSection == SectionId(item.href)
  }

  /** The probed ids are pairwise distinct, so at most one entry is
      highlighted whatever the active section is. */
  lemma AtMostOneActive(activeSection: string, i: nat, j: nat)
    requires i < |NavItems| && j < |NavItems|
    requires IsActive(activeSection, NavItems[i]) && IsActive(activeSection, NavItems[j])
    ensures i == j
  {
    SectionIdsValue();
    assert NavItems[i].href[1..] == SectionIds()[i] && NavItems[j].href[1..] == SectionIds()[j];
  }

  /** The navigation bar's state: `isScrolled`, `isMobileMenuOpen` and
      `activeSection`. */
  class NavigationBar {
    var isScrolled: bool
    var isMobileMenuOpen: bool
    var activeSection: string

    constructor ()
      ensures !isScrolled && !isMobileMenuOpen && activeSection == "home"
    {
      isScrolled, isMobileMenuOpen, activeSection := false, false, "home";
    }

    /** `handleScroll` for a window scrolled to `scrollY` over page `dom`. */
    method HandleScroll(scrollY: int, dom: Dom)
      modifies this
      ensures isScrolled == (scrollY > ScrollThreshold)
      ensures activeSection == ActiveAfterScroll(old(activeSection), dom, scrollY)
      ensures isMobileMenuOpen == old(isMobileMenuOpen)
    {
      isScrolled := scrollY > ScrollThreshold;
      var sections := SectionIds();
      var hit := ScanSections(sections, dom, scrollY + ProbeMargin);
      if hit.Some? {
        activeSection := sections[hit.value];
      }
      assert hit == FirstHit(SectionIds(), dom, scrollY + ProbeMargin);
    }

    /** `handleNavClick(href)`: close the menu, then navigate or scroll. */
    method HandleNavClick(href: string, dom: Dom) returns (action: NavAction)
      modifies this
      ensures !isMobileMenuOpen
      ensures action == ClickAction(href, dom)
      ensures isScrolled == old(isScrolled) && activeSection == old(activeSection)
    {
      isMobileMenuOpen := false;
      if StartsWith(href, "/") {
        action := PushRoute(href);
      } else {
        var id := SectionId(href);
        if id in dom {
          action := ScrollIntoView(id);
        } else {
          action := NoAction;
        }
      }
    }

    /** The menu button. */
    method ToggleMobileMenu()
      modifies this
      ensures isMobileMenuOpen == !old(isMobileMenuOpen)
      ensures isScrolled == old(isScrolled) && activeSection == old(activeSection)
    {
      isMobileMenuOpen := !isMobileMenuOpen;
    }

    /** A click on the backdrop behind the mobile menu. */
    method CloseMobileMenu()
      modifies this
      ensures !isMobileMenuOpen
      ensures isScrolled == old(isScrolled) && activeSection == old(activeSection)
    {
      isMobileMenuOpen := false;
    }
  }
}
