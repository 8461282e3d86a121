/** The page behaviour of the script: the colour theme and its persisted
    preference, the mobile menu, the portfolio filter and its buttons, the
    header's scrolled look and the navigation link of the section in view. */
module Page {
  import opened Optional

  // ---------------------------------------------------------------------------
  // Theme

  const Light: string := "light"
  const Dark: string := "dark"
  const SunIcon: string := "fas fa-sun"
  const MoonIcon: string := "fas fa-moon"

  /** `localStorage.getItem("theme") || "light"`: a missing or empty stored
      value falls back to the light theme. */
  function SavedTheme(stored: Option<string>): string {
    if stored.Some? && stored.value != "" then stored.value else Light
  }

  /** The theme after a toggle, given the current `data-theme` attribute
      (`None` when it is not set). */
  function Toggled(current: Option<string>): string {
    if current == Some(Dark) then Light else Dark
  }

  /** The icon shown on the theme button for a theme. */
  function ThemeIcon(theme: string): string {
    if theme == Dark then SunIcon else MoonIcon
  }

  /** The theme an initialisation applies: the stored one, or light when
      nothing (or the empty string) is stored. */
  lemma SavedThemeDefault(stored: Option<string>)
    ensures SavedTheme(stored) != ""
    ensures stored == None || stored == Some("") ==> SavedTheme(stored) == Light
    ensures stored.Some? && stored.value != "" ==> SavedTheme(stored) == stored.value
  {
  }

  /** Light and dark toggle to each other; any other value, or no value, toggles to dark. */
  lemma ToggleSwaps(current: Option<string>)
    ensures Toggled(current) == Light <==> current == Some(Dark)
    ensures Toggled(current) == Dark <==> current != Some(Dark)
  {
  }

  /** Toggling twice from light or dark restores the theme. */
  lemma ToggleTwice(theme: string)
    requires theme == Light || theme == Dark
    ensures Toggled(Some(Toggled(Some(theme)))) == theme
  {
  }

  /** A toggled theme is stored non-empty, so the next page load applies it again. */
  lemma ReloadKeepsToggledTheme(current: Option<string>)
    ensures SavedTheme(Some(Toggled(current))) == Toggled(current)
  {
  }

  /** The sun icon is shown exactly for the dark theme, the moon icon otherwise. */
  lemma ThemeIconIff(theme: string)
    ensures ThemeIcon(theme) == SunIcon <==> theme == Dark
    ensures ThemeIcon(theme) == MoonIcon <==> theme != Dark
  {
  }

  // ---------------------------------------------------------------------------
  // Mobile navigation

  const TimesIcon: string := "fas fa-times"
  const BarsIcon: string := "fas fa-bars"

  /** The icon of the menu button: a cross while the menu is open. */
  function MenuIcon(active: bool): string {
    if active then TimesIcon else BarsIcon
  }

  // ---------------------------------------------------------------------------
  // Portfolio filter

  /** A portfolio item: its `data-category` attribute and whether it is
      displayed once the filter's animation timers have run. */
  datatype Item = Item(category: Option<string>, displayed: bool)

  const AllCategory: string := "all"

  /** Whether the filter for `category` shows an item of `itemCategory`. */
  predicate Shows(category: Option<string>, itemCategory: Option<string>) {
    category == Some(AllCategory) || itemCategory == category
  }

  /** The items after filtering by `category`: each item on its own. */
  function Filtered(items: seq<Item>, category: Option<string>): seq<Item> {
    seq(|items|, i requires 0 <= i < |items| =>
      items[i].(displayed := Shows(category, items[i].category)))
  }

  /** After filtering, an item is displayed exactly when the category is "all"
      or equals the item's category; no item's category changes. */
  lemma FilteredIff(items: seq<Item>, category: Option<string>, i: int)
    requires 0 <= i < |items|
    ensures |Filtered(items, category)| == |items|
    ensures Filtered(items, category)[i].category == items[i].category
    ensures Filtered(items, category)[i].displayed
      <==> category == Some(AllCategory) || items[i].category == category
  {
  }

  /** Each item's outcome depends on that item alone. */
  lemma FilteredIndependent(items: seq<Item>, others: seq<Item>, category: Option<string>, i: int, j: int)
    requires 0 <= i < |items| && 0 <= j < |others| && items[i] == others[j]
    ensures Filtered(items, category)[i] == Filtered(others, category)[j]
  {
  }

  /** Filtering by "all" displays every item. */
  lemma FilterAllShowsEverything(items: seq<Item>)
    ensures forall i :: 0 <= i < |items| ==> Filtered(items, Some(AllCategory))[i].displayed
  {
  }

  /** Filtering again by the same category changes nothing. */
  lemma FilterIdempotent(items: seq<Item>, category: Option<string>)
    ensures Filtered(Filtered(items, category), category) == Filtered(items, category)
  {
  }

  // ---------------------------------------------------------------------------
  // Filter buttons

  /** A filter button: its `data-filter` attribute and its `active` class. */
  datatype FilterButton = FilterButton(filter: Option<string>, active: bool)

  /** The buttons after button `k` is clicked. */
  function Selected(buttons: seq<FilterButton>, k: int): seq<FilterButton> {
    seq(|buttons|, j requires 0 <= j < |buttons| => buttons[j].(active := j == k))
  }

  function ActiveButtons(buttons: seq<FilterButton>): set<int> {
    set j | 0 <= j < |buttons| && buttons[j].active
  }

  /** After a click, the clicked button is the one and only active button. */
  lemma ExactlyClickedActive(buttons: seq<FilterButton>, k: int)
    requires 0 <= k < |buttons|
    ensures ActiveButtons(Selected(buttons, k)) == {k}
  {
  }

  // ---------------------------------------------------------------------------
  // Header

  /** The scroll offset beyond which the header takes its scrolled look. */
  const ScrolledThreshold: real := 100.0

  predicate Scrolled(pageYOffset: real) {
    pageYOffset > ScrolledThreshold
  }

  /** The threshold is strict: at exactly 100 the header is not scrolled. */
  lemma ScrolledIsStrict(pageYOffset: real)
    ensures Scrolled(pageYOffset) <==> pageYOffset > 100.0
    ensures !Scrolled(100.0)
  {
  }

  // ---------------------------------------------------------------------------
  // Active navigation link

  /** The offset added to the scroll position before it is compared with
      the sections. */
  const NavOffset: real := 100.0

  /** A navigation link: its `href` attribute and its `active` class. */
  datatype NavLink = NavLink(href: Option<string>, active: bool)

  /** A page section with an `id`: its `offsetTop` and `offsetHeight`. */
  datatype Section = Section(top: int, height: int, id: string)

  /** Whether the position lies in the section: top ≤ pos < top + height. */
  predicate Contains(s: Section, pos: real) {
    s.top as real <= pos && pos < (s.top + s.height) as real
  }

  /** The id of the last section, in document order, that contains the position. */
  function LastMatch(sections: seq<Section>, pos: real): Option<string> {
    if sections == [] then None
    else if Contains(sections[|sections| - 1], pos) then Some(sections[|sections| - 1].id)
    else LastMatch(sections[..|sections| - 1], pos)
  }

  /** The links with `active` exactly on those whose href is "#" + id. */
  function Marked(links: seq<NavLink>, id: string): seq<NavLink> {
    seq(|links|, j requires 0 <= j < |links| => links[j].(active := links[j].href == Some("#" + id)))
  }

  /** The links after the sections are examined at position `pos`. */
  function Settle(links: seq<NavLink>, sections: seq<Section>, pos: real): seq<NavLink> {
    match LastMatch(sections, pos)
    case None => links
    case Some(id) => Marked(links, id)
  }

  /** The links after a scroll event at `pageYOffset`. */
  function AfterScroll(links: seq<NavLink>, sections: seq<Section>, pageYOffset: real): seq<NavLink> {
    Settle(links, sections, pageYOffset + NavOffset)
  }

  /** No section matches exactly when none contains the position. */
  lemma {:induction false} LastMatchNone(sections: seq<Section>, pos: real)
    ensures LastMatch(sections, pos) == None
      <==> forall k :: 0 <= k < |sections| ==> !Contains(sections[k], pos)
  {
    if sections != [] {
      var n := |sections| - 1;
      LastMatchNone(sections[..n], pos);
      assert forall k :: 0 <= k < n ==> sections[..n][k] == sections[k];
    }
  }

  /** The last containing section wins: if section k contains the position
      and no later one does, the match is section k. */
  lemma {:induction false} LastMatchIsLast(sections: seq<Section>, pos: real, k: int)
    requires 0 <= k < |sections| && Contains(sections[k], pos)
    requires forall k' :: k < k' < |sections| ==> !Contains(sections[k'], pos)
    ensures LastMatch(sections, pos) == Some(sections[k].id)
  {
    var n := |sections| - 1;
    if k < n {
      LastMatchIsLast(sections[..n], pos, k);
    }
  }

  /** A match is the id of a containing section after which no section contains the position. */
  lemma {:induction false} LastMatchSome(sections: seq<Section>, pos: real, id: string)
    requires LastMatch(sections, pos) == Some(id)
    ensures exists k :: (0 <= k < |sections| && Contains(sections[k], pos) && sections[k].id == id
                         && forall k' :: k < k' < |sections| ==> !Contains(sections[k'], pos))
  {
    var n := |sections| - 1;
    if !Contains(sections[n], pos) {
      LastMatchSome(sections[..n], pos, id);
      var k :| 0 <= k < n && Contains(sections[..n][k], pos) && sections[..n][k].id == id
        && forall k' :: k < k' < n ==> !Contains(sections[..n][k'], pos);
      assert sections[k] == sections[..n][k];
      forall k' | k < k' < |sections| ensures !Contains(sections[k'], pos) {
        if k' < n {
          assert sections[k'] == sections[..n][k'];
        }
      }
    }
  }

  /** Marking again for another section leaves the links as marking for that section alone. */
  lemma MarkedTwice(links: seq<NavLink>, a: string, b: string)
    ensures Marked(Marked(links, a), b) == Marked(links, b)
  {
  }

  /** After a scroll event: when some section contains the position, a link is
      active exactly when its href is "#" + the id of the last such section;
      otherwise no link changes. Hrefs never change. */
  lemma AfterScrollActive(links: seq<NavLink>, sections: seq<Section>, pageYOffset: real)
    ensures |AfterScroll(links, sections, pageYOffset)| == |links|
    ensures forall j :: 0 <= j < |links| ==> AfterScroll(links, sections, pageYOffset)[j].href == links[j].href
    ensures (forall k :: 0 <= k < |sections| ==> !Contains(sections[k], pageYOffset + NavOffset))
      ==> AfterScroll(links, sections, pageYOffset) == links
    ensures forall k :: (0 <= k < |sections| && Contains(sections[k], pageYOffset + NavOffset)
                         && (forall k' :: k < k' < |sections| ==> !Contains(sections[k'], pageYOffset + NavOffset))
                         ==> forall j :: 0 <= j < |links| ==>
                               (AfterScroll(links, sections, pageYOffset)[j].active
                                <==> links[j].href == Some("#" + sections[k].id)))
  {
    var pos := pageYOffset + NavOffset;
    LastMatchNone(sections, pos);
    forall k | 0 <= k < |sections| && Contains(sections[k], pos)
      && (forall k' :: k < k' < |sections| ==> !Contains(sections[k'], pos))
      ensures LastMatch(sections, pos) == Some(sections[k].id)
    {
      LastMatchIsLast(sections, pos, k);
    }
  }

  // ---------------------------------------------------------------------------
  // The page

  /** The page state the script reads and writes. */
  class Page {
    /** The `data-theme` attribute of the document element. */
    var themeAttr: Option<string>
    /** The value stored under the key "theme". */
    var storedTheme: Option<string>
    /** The class of the theme button's icon. */
    var themeIcon: string
    /** Whether the navigation menu has the `active` class. */
    var menuActive: bool
    /** The class of the menu button's icon. */
    var navIcon: string
    /** Whether the header has the `scrolled` class. */
    var headerScrolled: bool

    const items: array<Item>
    const filterButtons: array<FilterButton>
    const navLinks: array<NavLink>

    /** The theme button's icon agrees with the applied theme. */
    ghost predicate ThemeIconAgrees()
      reads this
    {
      themeIcon == ThemeIcon(themeAttr.GetOr(""))
    }

    /** The menu button's icon agrees with the menu state. */
    ghost predicate NavIconAgrees()
      reads this
    {
      navIcon == MenuIcon(menuActive)
    }

    /** A freshly loaded page: no theme applied yet, the menu closed, the
        header at the top, and the stored preference of an earlier visit. */
    constructor (stored: Option<string>, items: array<Item>, filterButtons: array<FilterButton>,
                 navLinks: array<NavLink>)
      ensures storedTheme == stored && themeAttr == None
      ensures !menuActive && !headerScrolled
      ensures ThemeIconAgrees() && NavIconAgrees()
      ensures this.items == items && this.filterButtons == filterButtons && this.navLinks == navLinks
    {
      themeAttr := None;
      storedTheme := stored;
      themeIcon := MoonIcon;
      menuActive := false;
      navIcon := BarsIcon;
      headerScrolled := false;
      this.items := items;
      this.filterButtons := filterButtons;
      this.navLinks := navLinks;
    }

    method UpdateThemeIcon(theme: string)
      modifies this`themeIcon
      ensures themeIcon == ThemeIcon(theme)
    {
      themeIcon := if theme == Dark then SunIcon else MoonIcon;
    }

    /** Applies the stored theme, or light; storage is only read. When
        `storageReadable` is false, `getItem` throws before anything is set,
        so nothing changes. */
    method InitTheme(storageReadable: bool)
      modifies this`themeAttr, this`themeIcon
      ensures storageReadable ==> themeAttr == Some(SavedTheme(storedTheme)) && ThemeIconAgrees()
      ensures !storageReadable ==> themeAttr == old(themeAttr) && themeIcon == old(themeIcon)
    {
      if !storageReadable {
        return;
      }
      var saved := if storedTheme.Some? && storedTheme.value != "" then storedTheme.value else Light;
      themeAttr := Some(saved);
      UpdateThemeIcon(saved);
    }

    /** Switches the theme, writing the same value to the attribute and to
        storage. When `storageWritable` is false, `setItem` throws after the
        attribute is set: storage keeps its old value and the icon is not
        updated. */
    method ToggleTheme(storageWritable: bool)
      modifies this`themeAttr, this`storedTheme, this`themeIcon
      ensures themeAttr == Some(Toggled(old(themeAttr)))
      ensures storageWritable ==> storedTheme == themeAttr && ThemeIconAgrees()
      ensures !storageWritable ==> storedTheme == old(storedTheme) && themeIcon == old(themeIcon)
    {
      var newTheme := if themeAttr == Some(Dark) then Light else Dark;
      themeAttr := Some(newTheme);
      if !storageWritable {
        return;
      }
      storedTheme := Some(newTheme);
      UpdateThemeIcon(newTheme);
    }

    method ToggleMobileNav()
      modifies this`menuActive, this`navIcon
      ensures menuActive == !old(menuActive)
      ensures navIcon == TimesIcon <==> menuActive
      ensures NavIconAgrees()
    {
      menuActive := !menuActive;
      navIcon := if menuActive then TimesIcon else BarsIcon;
    }

    /** Closes the menu whatever its state, so closing twice is closing once. */
    method CloseMobileNav()
      modifies this`menuActive, this`navIcon
      ensures !menuActive && navIcon == BarsIcon
      ensures NavIconAgrees()
    {
      menuActive := false;
      navIcon := BarsIcon;
    }

    /** Shows the items of `category` (all of them for "all") and hides the rest. */
    method FilterPortfolio(category: Option<string>)
      modifies items
      ensures items[..] == Filtered(old(items[..]), category)
    {
      var i := 0;
      while i < items.Length
        invariant 0 <= i <= items.Length
        invariant forall t :: 0 <= t < i ==>
          items[t] == old(items[t]).(displayed := Shows(category, old(items[t]).category))
        invariant forall t :: i <= t < items.Length ==> items[t] == old(items[t])
      {
        var itemCategory := items[i].category;
        if category == Some(AllCategory) || itemCategory == category {
          items[i] := items[i].(displayed := true);
        } else {
          items[i] := items[i].(displayed := false);
        }
        i := i + 1;
      }
    }

    /** A click on filter button `k`: only that button becomes active, and
        the portfolio is filtered by its `data-filter`. */
    method ClickFilterButton(k: int)
      requires 0 <= k < filterButtons.Length
      modifies filterButtons, items
      ensures filterButtons[..] == Selected(old(filterButtons[..]), k)
      ensures items[..] == Filtered(old(items[..]), old(filterButtons[k].filter))
    {
      var j := 0;
      while j < filterButtons.Length
        invariant 0 <= j <= filterButtons.Length
        invariant forall t :: 0 <= t < j ==> filterButtons[t] == old(filterButtons[t]).(active := false)
        invariant forall t :: j <= t < filterButtons.Length ==> filterButtons[t] == old(filterButtons[t])
        invariant items[..] == old(items[..])
      {
        filterButtons[j] := filterButtons[j].(active := false);
        j := j + 1;
      }
      filterButtons[k] := filterButtons[k].(active := true);
      var category := filterButtons[k].filter;
      FilterPortfolio(category);
    }

    method HandleScroll(pageYOffset: real)
      modifies this`headerScrolled
      ensures headerScrolled <==> Scrolled(pageYOffset)
    {
      if pageYOffset > 100.0 {
        headerScrolled := true;
      } else {
        headerScrolled := false;
      }
    }

    /** Marks the link of the section in view, examining every section in
        document order and re-marking the links for each one that contains
        the scroll position. */
    method UpdateActiveNavLink(sections: seq<Section>, pageYOffset: real)
      modifies navLinks
      ensures navLinks[..] == AfterScroll(old(navLinks[..]), sections, pageYOffset)
    {
      var scrollPos := pageYOffset + 100.0;
      var i := 0;
      while i < |sections|
        invariant 0 <= i <= |sections|
        invariant navLinks[..] == Settle(old(navLinks[..]), sections[..i], scrollPos)
      {
        var section := sections[i];
        assert sections[..i + 1][..i] == sections[..i];
        if section.top as real <= scrollPos && scrollPos < (section.top + section.height) as real {
          ghost var before := navLinks[..];
          var j := 0;
          while j < navLinks.Length
            invariant 0 <= j <= navLinks.Length
            invariant forall t :: 0 <= t < j ==>
              navLinks[t] == before[t].(active := before[t].href == Some("#" + section.id))
            invariant forall t :: j <= t < navLinks.Length ==> navLinks[t] == before[t]
          {
            var link := navLinks[j].(active := false);
            if link.href == Some("#" + section.id) {
              link := link.(active := true);
            }
            navLinks[j] := link;
            j := j + 1;
          }
          assert navLinks[..] == Marked(before, section.id);
          match LastMatch(sections[..i], scrollPos)
          case None =>
          case Some(id) => MarkedTwice(old(navLinks[..]), id, section.id);
        }
        i := i + 1;
      }
      assert sections[..i] == sections;
    }
  }
}
