/**
 * The records the desktop components exchange. Callbacks the components
 * receive from their callers (menu-item handlers, search-result actions) are
 * opaque tokens: the model only records WHICH callback is invoked.
 */
module Types {
  import opened Wrappers

  /** Identifies a caller-supplied `() => void` callback. */
  type ActionId = nat

  datatype Point = Point(x: real, y: real)

  datatype Size = Size(width: int, height: int)

  /** One open window, with exactly the nine fields of the library's window record. */
  datatype WindowState = WindowState(
    id: string,
    appId: string,
    title: string,
    isMinimized: bool,
    isMaximized: bool,
    isFocused: bool,
    position: Point,
    size: Size,
    zIndex: int)

  /** A dock entry; an absent `isRunning` is read as false, as JSX's `&&` reads `undefined`. */
  datatype DockEntry = DockEntry(id: string, name: string, onClick: Option<ActionId>, isRunning: bool, badge: Option<int>)

  /**
   * A menu entry. Its label is stored as `text` (`label` is a Dafny keyword);
   * separators in the default menus carry no label and get the empty text.
   */
  datatype MenuItem = MenuItem(
    text: string,
    shortcut: Option<string>,
    onClick: Option<ActionId>,
    disabled: bool,
    separator: bool,
    submenu: Option<seq<MenuItem>>)

  datatype MenuBarMenu = MenuBarMenu(title: string, items: seq<MenuItem>)

  datatype Theme = Light | Dark | Auto

  datatype DockPosition = Bottom | Left | Right

  datatype DesktopSettings = DesktopSettings(
    theme: Theme,
    accentColor: string,
    wallpaper: string,
    dockPosition: DockPosition,
    dockSize: int,
    dockMagnification: bool,
    dockAutoHide: bool)

  /** `Partial<DesktopSettings>`: a field is either present with a value or absent. */
  datatype SettingsPatch = SettingsPatch(
    theme: Option<Theme>,
    accentColor: Option<string>,
    wallpaper: Option<string>,
    dockPosition: Option<DockPosition>,
    dockSize: Option<int>,
    dockMagnification: Option<bool>,
    dockAutoHide: Option<bool>)

  const EmptyPatch := SettingsPatch(None, None, None, None, None, None, None)

  datatype ResultType = App | File | Setting | Web

  datatype SpotlightResult = SpotlightResult(
    id: string,
    kind: ResultType,
    title: string,
    subtitle: Option<string>,
    icon: Option<string>,
    action: ActionId)

  /**
   * The state the desktop context exposes: the window list, the nullable
   * active-window id and the settings record.
   */
  datatype Desktop = Desktop(windows: seq<WindowState>, activeWindowId: Option<string>, settings: DesktopSettings)

  /** The context's six mutators, one constructor each. */
  datatype Intent =
    | OpenWindow(appId: string)
    | CloseWindow(id: string)
    | FocusWindow(id: string)
    | MinimizeWindow(id: string)
    | MaximizeWindow(id: string)
    | UpdateSettings(updates: SettingsPatch)

  /** The fields of a browser keyboard event that the handlers read. */
  datatype KeyEvent = KeyEvent(key: string, code: string, metaKey: bool, shiftKey: bool)

  /** JavaScript truthiness of a string: only the empty string is falsy. */
  predicate Truthy(s: string) {
    s != ""
  }
}
