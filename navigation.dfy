/**
 * The navigation bar: the `active` classes of the hamburger button and of the menu, the
 * page's `body.style.overflow`, the `scrolled` shadow class, and the `active` class of each
 * navigation link, driven by clicks, resizes and scroll positions (the DOM reads become
 * parameters).
 */
module Navigation {
  import opened Wrappers

  /** The viewport width above which an open mobile menu is closed on resize. */
  const DesktopWidth := 768

  /** The scroll offset beyond which the bar carries its shadow. */
  const ShadowOffset: real := 100.0

  /** The offset added to the scroll position when looking for the current section. */
  const SectionProbe: real := 100.0

  /** The mobile-menu part of the page state. */
  datatype Menu = Menu(hamburgerActive: bool, menuActive: bool, overflow: string)

  /** Both controls agree, and the page is locked exactly while the menu is open. */
  predicate Consistent(m: Menu)
  {
    m.hamburgerActive == m.menuActive && m.overflow == (if m.menuActive then "hidden" else "")
  }

  /** The page as loaded: menu closed, page scrollable. */
  const Closed := Menu(false, false, "")

  /** `toggleMobileMenu`: both classes flip; the page is locked when the menu ends up open. */
  function Toggle(m: Menu): (r: Menu)
    ensures r.menuActive == !m.menuActive
    ensures r.overflow == (if r.menuActive then "hidden" else "")
    ensures (r.hamburgerActive == r.menuActive) == (m.hamburgerActive == m.menuActive)
    ensures Consistent(m) ==> Consistent(r)
  {
    var hamburger := !m.hamburgerActive;
    var menu := !m.menuActive;
    Menu(hamburger, menu, if menu then "hidden" else "")
  }

  /** `closeMobileMenu`: whatever the state, the menu ends closed and the page unlocked. */
  function Close(m: Menu): (r: Menu)
    ensures r == Closed && Consistent(r)
  {
    Menu(false, false, "")
  }

  /** A click anywhere in the document: outside the navigation bar it closes an open menu. */
  function OutsideClick(m: Menu, insideNavbar: bool): (r: Menu)
    ensures insideNavbar || !m.menuActive ==> r == m
    ensures !insideNavbar && m.menuActive ==> r == Closed
  {
    if !insideNavbar && m.menuActive then Close(m) else m
  }

  /** A resize: a viewport wider than 768 pixels closes the menu, whether open or not. */
  function Resize(m: Menu, innerWidth: int): (r: Menu)
    ensures innerWidth > DesktopWidth ==> r == Closed
    ensures innerWidth <= DesktopWidth ==> r == m
  {
    if innerWidth > DesktopWidth then Close(m) else m
  }

  /** Toggling twice gives back the state, when the page lock matched the menu. */
  lemma ToggleTwice(m: Menu)
    requires m.overflow == (if m.menuActive then "hidden" else "")
    ensures Toggle(Toggle(m)) == m
  {
  }

  /** Closing is idempotent. */
  lemma CloseIdempotent(m: Menu)
    ensures Close(Close(m)) == Close(m)
  {
  }

  /** In a consistent state, a click outside the bar has the same effect as `closeMobileMenu`. */
  lemma OutsideClickCloses(m: Menu)
    requires Consistent(m)
    ensures OutsideClick(m, false) == Close(m)
  {
  }

  /**
   * The scroll handler's rule: the bar carries its shadow exactly beyond 100 pixels. The
   * offset is fractional on zoomed and high-density screens, hence a `real`.
   */
  predicate Scrolled(scrollY: real)
  {
    scrollY > ShadowOffset
  }

  /** A `section[id]` as the active-section handler reads it: `offsetTop` and `offsetHeight` are whole pixels. */
  datatype Section = Section(top: int, height: int, id: string)

  /** The probe position falls inside the section, top included, bottom excluded. */
  predicate Covers(s: Section, position: real)
  {
    s.top as real <= position < (s.top + s.height) as real
  }

  /** The index of the last section, in document order, that covers `position`. */
  function LastCovering(sections: seq<Section>, position: real): (r: Option<nat>)
    ensures r.Some? ==> r.value < |sections| && Covers(sections[r.value], position)
    ensures r.Some? ==> forall j :: r.value < j < |sections| ==> !Covers(sections[j], position)
    ensures r.None? <==> forall j :: 0 <= j < |sections| ==> !Covers(sections[j], position)
  {
    if sections == [] then None
    else if Covers(sections[|sections| - 1], position) then Some(|sections| - 1)
    else LastCovering(sections[..|sections| - 1], position)
  }

  /** The link targets section `id`. */
  predicate Targets(href: string, id: string)
  {
    href == "#" + id
  }

  /**
   * The link states after one active-section tick at `scrollY`: when some section covers
   * `scrollY + 100`, the last such section decides and exactly the links targeting it are
   * active; when none does, every link keeps its state.
   */
  function ActiveAfterTick(hrefs: seq<string>, active: seq<bool>, sections: seq<Section>, scrollY: real): (r: seq<bool>)
    requires |active| == |hrefs|
    ensures |r| == |hrefs|
  {
    match LastCovering(sections, scrollY + SectionProbe)
    case None => active
    case Some(i) => seq(|hrefs|, k requires 0 <= k < |hrefs| => Targets(hrefs[k], sections[i].id))
  }

  /**
   * What a tick means for one link: if some section covers the probe, the link is active
   * exactly when it targets the last covering section; otherwise it keeps its state.
   */
  lemma {:induction false} TickSelectsLastSection(hrefs: seq<string>, active: seq<bool>, sections: seq<Section>, scrollY: real, k: nat)
    requires |active| == |hrefs| && k < |hrefs|
    ensures var p := scrollY + SectionProbe;
            (exists i :: 0 <= i < |sections| && Covers(sections[i], p)
                         && (forall j :: i < j < |sections| ==> !Covers(sections[j], p))
                         && ActiveAfterTick(hrefs, active, sections, scrollY)[k] == Targets(hrefs[k], sections[i].id))
            || ((forall j :: 0 <= j < |sections| ==> !Covers(sections[j], p))
                && ActiveAfterTick(hrefs, active, sections, scrollY)[k] == active[k])
  {
    var p := scrollY + SectionProbe;
    match LastCovering(sections, p)
    case None =>
    case Some(i) =>
      assert ActiveAfterTick(hrefs, active, sections, scrollY)[k] == Targets(hrefs[k], sections[i].id);
  }

  /** With distinct link targets, a tick whose section has a link leaves exactly that one link active. */
  lemma {:induction false} SingleActiveLink(hrefs: seq<string>, active: seq<bool>, sections: seq<Section>, scrollY: real, k: nat)
    requires |active| == |hrefs| && k < |hrefs|
    requires forall a, b :: 0 <= a < b < |hrefs| ==> hrefs[a] != hrefs[b]
    requires LastCovering(sections, scrollY + SectionProbe).Some?
    requires Targets(hrefs[k], sections[LastCovering(sections, scrollY + SectionProbe).value].id)
    ensures forall j :: 0 <= j < |hrefs| ==> (ActiveAfterTick(hrefs, active, sections, scrollY)[j] <==> j == k)
  {
    var i := LastCovering(sections, scrollY + SectionProbe).value;
    forall j | 0 <= j < |hrefs|
      ensures ActiveAfterTick(hrefs, active, sections, scrollY)[j] <==> j == k
    {
      if j != k && Targets(hrefs[j], sections[i].id) {
        assert false;
      }
    }
  }

  /**
   * The navigation bar as the page holds it. `hrefs` are the `href` attributes of the
   * navigation links and `linkActive` their `active` classes, index by index.
   */
  class NavigationBar {
    var hamburgerActive: bool
    var menuActive: bool
    var bodyOverflow: string
    var scrolled: bool
    const hrefs: seq<string>
    var linkActive: seq<bool>

    function MenuState(): Menu
      reads this
    {
      Menu(hamburgerActive, menuActive, bodyOverflow)
    }

    /** One state per link, and a menu whose controls and page lock agree. */
    ghost predicate Valid()
      reads this
    {
      |linkActive| == |hrefs| && Consistent(MenuState())
    }

    /**
     * The constructor runs `handleScroll` once; the menu, the link classes and the page lock
     * are whatever the markup holds.
     */
    constructor (menu: Menu, hrefs: seq<string>, linkActive: seq<bool>, scrollY: real)
      requires Consistent(menu) && |linkActive| == |hrefs|
      ensures Valid() && MenuState() == menu
      ensures scrolled == Scrolled(scrollY)
      ensures this.hrefs == hrefs && this.linkActive == linkActive
    {
      hamburgerActive, menuActive, bodyOverflow := menu.hamburgerActive, menu.menuActive, menu.overflow;
      this.hrefs := hrefs;
      this.linkActive := linkActive;
      scrolled := scrollY > ShadowOffset;
    }

    /** The hamburger button is clicked. */
    method ToggleMobileMenu()
      requires Valid()
      modifies this
      ensures Valid() && MenuState() == Toggle(old(MenuState()))
      ensures scrolled == old(scrolled) && linkActive == old(linkActive)
    {
      hamburgerActive := !hamburgerActive;
      menuActive := !menuActive;
      if menuActive {
        bodyOverflow := "hidden";
      } else {
        bodyOverflow := "";
      }
    }

    method CloseMobileMenu()
      requires Valid()
      modifies this
      ensures Valid() && MenuState() == Close(old(MenuState()))
      ensures scrolled == old(scrolled) && linkActive == old(linkActive)
    {
      hamburgerActive := false;
      menuActive := false;
      bodyOverflow := "";
    }

    /** A navigation link is clicked: the menu closes. */
    method NavLinkClicked()
      requires Valid()
      modifies this
      ensures Valid() && MenuState() == Closed
      ensures scrolled == old(scrolled) && linkActive == old(linkActive)
    {
      CloseMobileMenu();
    }

    /** A click anywhere in the document; `insideNavbar` is whether the bar contains its target. */
    method DocumentClicked(insideNavbar: bool)
      requires Valid()
      modifies this
      ensures Valid() && MenuState() == OutsideClick(old(MenuState()), insideNavbar)
      ensures scrolled == old(scrolled) && linkActive == old(linkActive)
    {
      if !insideNavbar && menuActive {
        CloseMobileMenu();
      }
    }

    /** The window is resized to `innerWidth`. */
    method Resized(innerWidth: int)
      requires Valid()
      modifies this
      ensures Valid() && MenuState() == Resize(old(MenuState()), innerWidth)
      ensures scrolled == old(scrolled) && linkActive == old(linkActive)
    {
      if innerWidth > DesktopWidth {
        CloseMobileMenu();
      }
    }

    /** `handleScroll` at `scrollY`. */
    method HandleScroll(scrollY: real)
      requires Valid()
      modifies this
      ensures Valid() && scrolled == Scrolled(scrollY)
      ensures MenuState() == old(MenuState()) && linkActive == old(linkActive)
    {
      if scrollY > ShadowOffset {
        scrolled := true;
      } else {
        scrolled := false;
      }
    }

    /**
     * One active-section tick: for every section covering `scrollY + 100`, in document order,
     * every link loses `active` and regains it when it targets that section.
     */
    method ActiveSectionTick(scrollY: real, sections: seq<Section>)
      requires Valid()
      modifies this
      ensures Valid() && linkActive == ActiveAfterTick(hrefs, old(linkActive), sections, scrollY)
      ensures MenuState() == old(MenuState()) && scrolled == old(scrolled)
    {
      var position := scrollY + SectionProbe;
      var i := 0;
      while i < |sections|
        invariant 0 <= i <= |sections|
        invariant Valid() && MenuState() == old(MenuState()) && scrolled == old(scrolled)
        invariant linkActive == ActiveAfterTick(hrefs, old(linkActive), sections[..i], scrollY)
      {
        var section := sections[i];
        if position >= section.top as real && position < (section.top + section.height) as real {
          var k := 0;
          while k < |linkActive|
            invariant 0 <= k <= |linkActive| == |hrefs|
            invariant Valid() && MenuState() == old(MenuState()) && scrolled == old(scrolled)
            invariant forall j :: 0 <= j < k ==> linkActive[j] == Targets(hrefs[j], section.id)
          {
            linkActive := linkActive[k := false];
            if hrefs[k] == "#" + section.id {
              linkActive := linkActive[k := true];
            }
            k := k + 1;
          }
        }
        assert sections[..i + 1][..i] == sections[..i];
        i := i + 1;
      }
      assert sections[..i] == sections;
    }
  }
}
