/**
 * The settings panel (src/DesktopSettings.tsx). Each control emits a
 * one-field update drawn from a fixed domain; merged into the settings by
 * the window manager's `updateSettings`, these keep every reachable
 * settings record inside the panel's domains.
 */
module SettingsPanel {
  import opened Wrappers
  import opened Types
  import ZDesktop

  const Wallpapers: seq<string> := [
    "/wallpapers/default.jpg", "/wallpapers/dark.jpg", "/wallpapers/gradient.jpg", "/wallpapers/abstract.jpg"
  ]

  datatype AccentColor = AccentColor(name: string, value: string)

  const AccentColors: seq<AccentColor> := [
    AccentColor("Blue", "#007AFF"), AccentColor("Purple", "#5856D6"), AccentColor("Pink", "#FF2D55"),
    AccentColor("Red", "#FF3B30"), AccentColor("Orange", "#FF9500"), AccentColor("Yellow", "#FFCC00"),
    AccentColor("Green", "#34C759")
  ]

  const DockSizeMin := 32
  const DockSizeMax := 128

  /** A user action on one control of the panel. */
  datatype Control =
    | ThemeButton(theme: Theme)
    | AccentButton(index: int)
    | WallpaperButton(index: int)
    | SizeSlider(value: int)
    | MagnificationBox(checked: bool)
    | AutoHideBox(checked: bool)
    | PositionSelect(position: DockPosition)

  /** Buttons exist only for the listed options, and the slider only produces values within its bounds. */
  predicate ValidControl(c: Control) {
    match c
    case AccentButton(i) => 0 <= i < |AccentColors|
    case WallpaperButton(i) => 0 <= i < |Wallpapers|
    case SizeSlider(v) => DockSizeMin <= v <= DockSizeMax
    case _ => true
  }

  function FieldCount(p: SettingsPatch): nat {
    (if p.theme.Some? then 1 else 0) + (if p.accentColor.Some? then 1 else 0)
    + (if p.wallpaper.Some? then 1 else 0) + (if p.dockPosition.Some? then 1 else 0)
    + (if p.dockSize.Some? then 1 else 0) + (if p.dockMagnification.Some? then 1 else 0)
    + (if p.dockAutoHide.Some? then 1 else 0)
  }

  function AccentValues(): (vs: seq<string>)
    ensures |vs| == |AccentColors|
    ensures forall i :: 0 <= i < |AccentColors| ==> vs[i] == AccentColors[i].value
  {
    seq(|AccentColors|, i requires 0 <= i < |AccentColors| => AccentColors[i].value)
  }

  /** The update a control emits: exactly one field, with a value from the control's domain. */
  function Emit(c: Control): (p: SettingsPatch)
    requires ValidControl(c)
    ensures FieldCount(p) == 1
    ensures c.ThemeButton? ==> p == EmptyPatch.(theme := Some(c.theme))
    ensures c.AccentButton? ==> p.accentColor.Some? && p.accentColor.value in AccentValues()
    ensures c.WallpaperButton? ==> p.wallpaper.Some? && p.wallpaper.value in Wallpapers
    ensures c.SizeSlider? ==> p == EmptyPatch.(dockSize := Some(c.value)) && DockSizeMin <= p.dockSize.value <= DockSizeMax
    ensures c.MagnificationBox? ==> p == EmptyPatch.(dockMagnification := Some(c.checked))
    ensures c.AutoHideBox? ==> p == EmptyPatch.(dockAutoHide := Some(c.checked))
    ensures c.PositionSelect? ==> p == EmptyPatch.(dockPosition := Some(c.position))
  {
    match c
    case ThemeButton(t) => EmptyPatch.(theme := Some(t))
    case AccentButton(i) => EmptyPatch.(accentColor := Some(AccentColors[i].value))
    case WallpaperButton(i) => EmptyPatch.(wallpaper := Some(Wallpapers[i]))
    case SizeSlider(v) => EmptyPatch.(dockSize := Some(v))
    case MagnificationBox(b) => EmptyPatch.(dockMagnification := Some(b))
    case AutoHideBox(b) => EmptyPatch.(dockAutoHide := Some(b))
    case PositionSelect(pos) => EmptyPatch.(dockPosition := Some(pos))
  }

  /**
   * The values the panel can produce: a palette colour, a listed wallpaper
   * or the one the desktop was mounted with, a size within the slider's range.
   */
  predicate InDomain(s: DesktopSettings, mountedWallpaper: string) {
    && s.accentColor in AccentValues()
    && (s.wallpaper in Wallpapers || s.wallpaper == mountedWallpaper)
    && DockSizeMin <= s.dockSize <= DockSizeMax
  }

  /** The desktop after a sequence of control actions, starting from `d`. */
  function ApplyAll(d: Desktop, controls: seq<Control>): Desktop
    requires forall k :: 0 <= k < |controls| ==> ValidControl(controls[k])
    decreases |controls|
  {
    if |controls| == 0 then d
    else ApplyAll(ZDesktop.UpdateSettings(d, Emit(controls[0])), controls[1..])
  }

  /** The mounted settings are in the domain. */
  lemma InitialInDomain(wallpaper: Option<string>)
    ensures InDomain(ZDesktop.InitialSettings(wallpaper), ZDesktop.InitialSettings(wallpaper).wallpaper)
  {
    assert AccentValues()[0] == "#007AFF";
  }

  /** One control action keeps the settings in the domain. */
  lemma EmitKeepsDomain(d: Desktop, c: Control, mountedWallpaper: string)
    requires ValidControl(c) && InDomain(d.settings, mountedWallpaper)
    ensures InDomain(ZDesktop.UpdateSettings(d, Emit(c)).settings, mountedWallpaper)
  {
  }

  /** Every settings record the panel can reach from mount stays in the domain; windows are untouched. */
  lemma {:induction false} ReachableSettingsInDomain(d: Desktop, controls: seq<Control>, mountedWallpaper: string)
    requires forall k :: 0 <= k < |controls| ==> ValidControl(controls[k])
    requires InDomain(d.settings, mountedWallpaper)
    ensures InDomain(ApplyAll(d, controls).settings, mountedWallpaper)
    ensures ApplyAll(d, controls).windows == d.windows
    decreases |controls|
  {
    if |controls| > 0 {
      EmitKeepsDomain(d, controls[0], mountedWallpaper);
      ReachableSettingsInDomain(ZDesktop.UpdateSettings(d, Emit(controls[0])), controls[1..], mountedWallpaper);
    }
  }

  /** Whether the button for theme `t` is highlighted. */
  function ThemeHighlighted(s: DesktopSettings, t: Theme): (on: bool)
    ensures on <==> s.theme == t
  {
    s.theme == t
  }

  /** Whether the button for palette entry `i` is highlighted. */
  function AccentHighlighted(s: DesktopSettings, i: int): (on: bool)
    requires 0 <= i < |AccentColors|
    ensures on <==> s.accentColor == AccentColors[i].value
  {
    s.accentColor == AccentColors[i].value
  }

  /** Whether the button for wallpaper `i` is highlighted. */
  function WallpaperHighlighted(s: DesktopSettings, i: int): (on: bool)
    requires 0 <= i < |Wallpapers|
    ensures on <==> s.wallpaper == Wallpapers[i]
  {
    s.wallpaper == Wallpapers[i]
  }

  /** After pressing a theme, accent or wallpaper button, exactly that button of its row is highlighted. */
  lemma PressedButtonAloneHighlighted(d: Desktop, c: Control)
    requires ValidControl(c)
    ensures var s := ZDesktop.UpdateSettings(d, Emit(c)).settings;
      && (c.ThemeButton? ==> forall t :: ThemeHighlighted(s, t) <==> t == c.theme)
      && (c.AccentButton? ==> forall i :: 0 <= i < |AccentColors| ==> (AccentHighlighted(s, i) <==> i == c.index))
      && (c.WallpaperButton? ==> forall i :: 0 <= i < |Wallpapers| ==> (WallpaperHighlighted(s, i) <==> i == c.index))
  {
  }
}
