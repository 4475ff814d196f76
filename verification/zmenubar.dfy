/**
 * The menu bar (src/ZMenuBar.tsx): default menus and the open-menu state.
 * `openMenu` holds a title or null; where the source tests it for
 * truthiness, an empty title counts as closed.
 */
module ZMenuBar {
  import opened Wrappers
  import opened Types

  const DefaultAppName := "Finder"

  function Item(text: string, shortcut: Option<string>): MenuItem {
    MenuItem(text, shortcut, None, false, false, None)
  }

  const Separator := MenuItem("", None, None, false, true, None)

  const DefaultMenus: seq<MenuBarMenu> := [
    MenuBarMenu("File", [Item("New Window", Some("⌘N")), Item("Close Window", Some("⌘W")), Separator,
                         Item("Quit", Some("⌘Q"))]),
    MenuBarMenu("Edit", [Item("Undo", Some("⌘Z")), Item("Redo", Some("⇧⌘Z")), Separator,
                         Item("Cut", Some("⌘X")), Item("Copy", Some("⌘C")), Item("Paste", Some("⌘V"))]),
    MenuBarMenu("View", [Item("Toggle Full Screen", Some("⌃⌘F"))]),
    MenuBarMenu("Window", [Item("Minimize", Some("⌘M")), Item("Zoom", None)]),
    MenuBarMenu("Help", [Item("zOS Help", None)])
  ]

  function Titles(menus: seq<MenuBarMenu>): (ts: seq<string>)
    ensures |ts| == |menus|
    ensures forall i :: 0 <= i < |menus| ==> ts[i] == menus[i].title
  {
    seq(|menus|, i requires 0 <= i < |menus| => menus[i].title)
  }

  predicate DistinctTitles(menus: seq<MenuBarMenu>) {
    forall i, j :: 0 <= i < j < |menus| ==> menus[i].title != menus[j].title
  }

  /** The five default menus, in order, with distinct titles. */
  lemma DefaultMenusShape()
    ensures Titles(DefaultMenus) == ["File", "Edit", "View", "Window", "Help"]
    ensures DistinctTitles(DefaultMenus)
  {
  }

  /** The single piece of state: the title of the open menu, or null. */
  datatype MenuBar = MenuBar(openMenu: Option<string>)

  const Initial := MenuBar(None)

  /** The source's truthiness test on `openMenu`. */
  predicate AnyOpen(m: MenuBar) {
    m.openMenu.Some? && Truthy(m.openMenu.value)
  }

  /** Clicking a title opens that menu, or closes it if it was the open one. */
  function ClickTitle(m: MenuBar, title: string): (r: MenuBar)
    ensures m.openMenu == Some(title) ==> r.openMenu.None?
    ensures m.openMenu != Some(title) ==> r.openMenu == Some(title)
  {
    if m.openMenu == Some(title) then MenuBar(None) else MenuBar(Some(title))
  }

  /** Hovering a title switches to it only while some menu is open. */
  function HoverTitle(m: MenuBar, title: string): (r: MenuBar)
    ensures AnyOpen(m) ==> r.openMenu == Some(title)
    ensures !AnyOpen(m) ==> r == m
  {
    if AnyOpen(m) then MenuBar(Some(title)) else m
  }

  datatype ItemClicked = ItemClicked(state: MenuBar, run: Option<ActionId>)

  /**
   * Clicking an entry of the open menu. A separator is a divider and a
   * disabled entry is a disabled button: neither reacts. Any other entry
   * runs its callback, if it has one, and closes the menu.
   */
  function ClickItem(m: MenuBar, item: MenuItem): (r: ItemClicked)
    ensures item.separator || item.disabled ==> r == ItemClicked(m, None)
    ensures !item.separator && !item.disabled ==> r.state.openMenu.None? && r.run == item.onClick
  {
    if item.separator || item.disabled then ItemClicked(m, None)
    else ItemClicked(MenuBar(None), item.onClick)
  }

  /** Whether the click-outside backdrop is present. */
  function BackdropShown(m: MenuBar): (shown: bool)
    ensures shown <==> AnyOpen(m)
  {
    AnyOpen(m)
  }

  /** Clicking outside closes the menu; with no backdrop there is nothing to click. */
  function ClickBackdrop(m: MenuBar): (r: MenuBar)
    ensures BackdropShown(m) ==> r.openMenu.None? && !BackdropShown(r)
    ensures !BackdropShown(m) ==> r == m
  {
    if BackdropShown(m) then MenuBar(None) else m
  }

  /** Whether a menu's dropdown is drawn. */
  function DropdownShown(m: MenuBar, menu: MenuBarMenu): (shown: bool)
    ensures shown <==> m.openMenu == Some(menu.title)
  {
    m.openMenu == Some(menu.title)
  }

  /** With distinct titles, at most one dropdown is drawn. */
  lemma AtMostOneDropdown(m: MenuBar, menus: seq<MenuBarMenu>, i: int, j: int)
    requires DistinctTitles(menus)
    requires 0 <= i < |menus| && 0 <= j < |menus|
    requires DropdownShown(m, menus[i]) && DropdownShown(m, menus[j])
    ensures i == j
  {
  }

  /** Clicking the same title twice returns to where it started, from closed or from that menu. */
  lemma ClickTitleTwice(m: MenuBar, title: string)
    requires m.openMenu.None? || m.openMenu == Some(title)
    ensures ClickTitle(ClickTitle(m, title), title) == m
  {
  }

  datatype MenuEvent =
    | TitleClicked(title: string)
    | TitleHovered(title: string)
    | ItemChosen(item: MenuItem)
    | BackdropClicked

  function Step(m: MenuBar, e: MenuEvent): MenuBar {
    match e
    case TitleClicked(t) => ClickTitle(m, t)
    case TitleHovered(t) => HoverTitle(m, t)
    case ItemChosen(item) => ClickItem(m, item).state
    case BackdropClicked => ClickBackdrop(m)
  }

  function Run(m: MenuBar, events: seq<MenuEvent>): MenuBar
    decreases |events|
  {
    if |events| == 0 then m else Run(Step(m, events[0]), events[1..])
  }

  /** Events come from the rendered menus: every clicked or hovered title is one of theirs. */
  predicate OnTitles(events: seq<MenuEvent>, menus: seq<MenuBarMenu>) {
    forall k :: 0 <= k < |events| && (events[k].TitleClicked? || events[k].TitleHovered?) ==>
      events[k].title in Titles(menus)
  }

  /**
   * Whatever the user does, the open menu is always one of the rendered
   * menus or none, so with distinct titles exactly that one dropdown shows.
   */
  lemma {:induction false} OpenMenuIsARenderedMenu(m: MenuBar, menus: seq<MenuBarMenu>, events: seq<MenuEvent>)
    requires m.openMenu.None? || m.openMenu.value in Titles(menus)
    requires OnTitles(events, menus)
    ensures var r := Run(m, events);
      r.openMenu.None? || r.openMenu.value in Titles(menus)
    decreases |events|
  {
    if |events| > 0 {
      assert OnTitles(events[1..], menus) by {
        forall k | 0 <= k < |events[1..]| && (events[1..][k].TitleClicked? || events[1..][k].TitleHovered?)
          ensures events[1..][k].title in Titles(menus)
        {
          assert events[1..][k] == events[k + 1];
        }
      }
      OpenMenuIsARenderedMenu(Step(m, events[0]), menus, events[1..]);
    }
  }

  /**
   * Hovering never opens a menu from the closed bar; once a menu has been
   * opened by a click, hovering another title switches to it.
   */
  lemma HoverSwitchesOnlyAfterClick(m: MenuBar, a: string, b: string)
    requires Truthy(a) && m.openMenu != Some(a)
    ensures HoverTitle(Initial, b) == Initial
    ensures HoverTitle(ClickTitle(m, a), b).openMenu == Some(b)
  {
  }

  /**
   * Choosing an enabled entry closes every dropdown and the backdrop; a
   * separator or a disabled entry leaves every dropdown as it was.
   */
  lemma ChoosingItemClosesDropdowns(m: MenuBar, item: MenuItem, menus: seq<MenuBarMenu>)
    ensures var r := ClickItem(m, item).state;
      && (!item.separator && !item.disabled ==>
            !BackdropShown(r) && forall i :: 0 <= i < |menus| ==> !DropdownShown(r, menus[i]))
      && (item.separator || item.disabled ==>
            forall i :: 0 <= i < |menus| ==> DropdownShown(r, menus[i]) == DropdownShown(m, menus[i]))
  {
  }

  /**
   * While the open menu is one of the rendered ones, the backdrop is present
   * exactly when some dropdown with a non-empty title is drawn (an empty
   * title is falsy, so its dropdown opens without a backdrop).
   */
  lemma BackdropMatchesDropdown(m: MenuBar, menus: seq<MenuBarMenu>)
    requires m.openMenu.None? || m.openMenu.value in Titles(menus)
    ensures BackdropShown(m) <==>
      exists i :: 0 <= i < |menus| && DropdownShown(m, menus[i]) && Truthy(menus[i].title)
    ensures BackdropShown(ClickBackdrop(m)) == false
  {
    if BackdropShown(m) {
      var ts := Titles(menus);
      var i :| 0 <= i < |ts| && ts[i] == m.openMenu.value;
      assert DropdownShown(m, menus[i]) && Truthy(menus[i].title);
    }
  }
}
