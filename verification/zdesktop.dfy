/**
 * The library's window and settings state machine (src/ZDesktop.tsx).
 * Every mutator is a pure function from the context state to the next one.
 * `Date.now()` becomes the parameter `now` and the two `Math.random()` draws
 * become `randomX` and `randomY` in [0, 1).
 */
module ZDesktop {
  import opened Wrappers
  import opened Types
  import Decimal
  import Seqs
  import ZOrder

  const DefaultSettings := DesktopSettings(Dark, "#007AFF", "/wallpapers/default.jpg", Bottom, 64, true, false)

  /** The settings at mount: the defaults, except that a truthy wallpaper prop replaces the wallpaper. */
  function InitialSettings(wallpaper: Option<string>): (s: DesktopSettings)
    ensures s.(wallpaper := DefaultSettings.wallpaper) == DefaultSettings
    ensures wallpaper.Some? && Truthy(wallpaper.value) ==> s.wallpaper == wallpaper.value
    ensures !(wallpaper.Some? && Truthy(wallpaper.value)) ==> s == DefaultSettings
  {
    var chosen := if wallpaper.Some? && Truthy(wallpaper.value) then wallpaper.value else DefaultSettings.wallpaper;
    DefaultSettings.(wallpaper := chosen)
  }

  /** The state at mount: no windows, no active window. */
  function Initial(wallpaper: Option<string>): (d: Desktop)
    ensures d.windows == [] && d.activeWindowId == None
    ensures d.settings.(wallpaper := DefaultSettings.wallpaper) == DefaultSettings
  {
    Desktop([], None, InitialSettings(wallpaper))
  }

  /** The first window opened after mount is the only window: focused, at z-index 1, and active. */
  lemma OpenFromInitial(wallpaper: Option<string>, appId: string, now: nat, randomX: real, randomY: real)
    requires 0.0 <= randomX < 1.0 && 0.0 <= randomY < 1.0
    ensures var r := OpenWindow(Initial(wallpaper), appId, now, randomX, randomY);
      && |r.windows| == 1
      && r.windows[0].id == WindowId(appId, now)
      && r.windows[0].isFocused && r.windows[0].zIndex == 1
      && r.activeWindowId == Some(r.windows[0].id)
      && r.settings == InitialSettings(wallpaper)
  {
  }

  // ---------------------------------------------------------------------------
  // Window ids
  // ---------------------------------------------------------------------------

  /** The id template `${appId}-${Date.now()}`. */
  function WindowId(appId: string, now: nat): string {
    appId + "-" + Decimal.NatToString(now)
  }

  /** Distinct (app, timestamp) pairs give distinct ids: the timestamp contains no '-'. */
  lemma WindowIdInjective(a: string, t: nat, b: string, u: nat)
    requires WindowId(a, t) == WindowId(b, u)
    ensures a == b && t == u
  {
    var s, v := Decimal.NatToString(t), Decimal.NatToString(u);
    var w := WindowId(a, t);
    assert w == a + "-" + s && w == b + "-" + v;
    if |s| != |v| {
      DashNotInDigits(a, s, b, v);
    }
    assert a == w[..|a|] == b;
    assert s == w[|a| + 1..] == v;
    Decimal.NatToStringInjective(t, u);
  }

  /** A dash followed by digits cannot be split at two different dashes. */
  lemma DashNotInDigits(a: string, s: string, b: string, v: string)
    requires Decimal.AllDigits(s) && Decimal.AllDigits(v)
    requires a + "-" + s == b + "-" + v
    ensures |s| == |v|
  {
    var w := a + "-" + s;
    assert w[|a|] == '-' && w[|b|] == '-';
    assert forall i :: |a| < i < |w| ==> w[i] == s[i - |a| - 1];
    assert forall i :: |b| < i < |w| ==> w[i] == v[i - |b| - 1];
    assert !Decimal.IsDigit('-');
  }

  /** Ids are never empty, so JavaScript never reads one as falsy. */
  lemma WindowIdTruthy(appId: string, now: nat)
    ensures Truthy(WindowId(appId, now))
  {
  }

  predicate UniqueIds(ws: seq<WindowState>) {
    forall i, j :: 0 <= i < j < |ws| ==> ws[i].id != ws[j].id
  }

  predicate HasId(ws: seq<WindowState>, id: string) {
    exists i :: 0 <= i < |ws| && ws[i].id == id
  }

  // ---------------------------------------------------------------------------
  // openWindow
  // ---------------------------------------------------------------------------

  /** Appends a focused 800x600 window titled with the app id, stacked at `length + 1`. */
  function OpenWindow(d: Desktop, appId: string, now: nat, randomX: real, randomY: real): (r: Desktop)
    requires 0.0 <= randomX < 1.0 && 0.0 <= randomY < 1.0
    ensures |r.windows| == |d.windows| + 1
    ensures r.windows[..|d.windows|] == d.windows
    ensures var w := r.windows[|d.windows|];
      && w.id == WindowId(appId, now) && w.appId == appId && w.title == appId
      && !w.isMinimized && !w.isMaximized && w.isFocused
      && 100.0 <= w.position.x < 200.0 && 50.0 <= w.position.y < 100.0
      && w.size == Size(800, 600)
      && w.zIndex == |d.windows| + 1
    ensures r.activeWindowId == Some(WindowId(appId, now))
    ensures r.settings == d.settings
  {
    var w := WindowState(
      WindowId(appId, now), appId, appId, false, false, true,
      Point(100.0 + randomX * 100.0, 50.0 + randomY * 50.0),
      Size(800, 600),
      |d.windows| + 1);
    assert (d.windows + [w])[..|d.windows|] == d.windows;
    d.(windows := d.windows + [w], activeWindowId := Some(w.id))
  }

  /** Opening under a fresh id keeps the ids unique. */
  lemma OpenKeepsIdsUnique(d: Desktop, appId: string, now: nat, randomX: real, randomY: real)
    requires 0.0 <= randomX < 1.0 && 0.0 <= randomY < 1.0
    requires UniqueIds(d.windows)
    requires !HasId(d.windows, WindowId(appId, now))
    ensures UniqueIds(OpenWindow(d, appId, now, randomX, randomY).windows)
  {
    var ws := OpenWindow(d, appId, now, randomX, randomY).windows;
    forall i, j | 0 <= i < j < |ws|
      ensures ws[i].id != ws[j].id
    {
      if j == |d.windows| {
        assert ws[i] == d.windows[i];
      } else {
        assert ws[i] == d.windows[i] && ws[j] == d.windows[j];
      }
    }
  }

  /** Open does not clear older focus flags: a focused window stays focused beside the new one. */
  lemma OpenKeepsOlderFocus(d: Desktop, appId: string, now: nat, randomX: real, randomY: real, k: nat)
    requires 0.0 <= randomX < 1.0 && 0.0 <= randomY < 1.0
    requires k < |d.windows| && d.windows[k].isFocused
    ensures var ws := OpenWindow(d, appId, now, randomX, randomY).windows;
      ws[k].isFocused && ws[|d.windows|].isFocused && k != |d.windows|
  {
    var ws := OpenWindow(d, appId, now, randomX, randomY).windows;
    assert ws[k] == ws[..|d.windows|][k];
  }

  // ---------------------------------------------------------------------------
  // closeWindow
  // ---------------------------------------------------------------------------

  function KeepOthers(id: string): WindowState -> bool {
    (w: WindowState) => w.id != id
  }

  /** The id the active window falls back to: index `length - 2` of the list BEFORE removal, or null. */
  function FallbackActive(ws: seq<WindowState>): (r: Option<string>)
    ensures r.Some? <==> |ws| >= 2 && Truthy(ws[|ws| - 2].id)
    ensures r.Some? ==> r.value == ws[|ws| - 2].id
  {
    if |ws| >= 2 && Truthy(ws[|ws| - 2].id) then Some(ws[|ws| - 2].id) else None
  }

  /** Removes every window with the id; the active id moves only if it was the one closed. */
  function CloseWindow(d: Desktop, id: string): (r: Desktop)
    ensures |r.windows| <= |d.windows|
    ensures forall w :: w in r.windows <==> w in d.windows && w.id != id
    ensures !HasId(d.windows, id) ==> r.windows == d.windows
    ensures d.activeWindowId == Some(id) ==> r.activeWindowId == FallbackActive(d.windows)
    ensures d.activeWindowId != Some(id) ==> r.activeWindowId == d.activeWindowId
    ensures r.settings == d.settings
  {
    var rest := Seqs.Filter(d.windows, KeepOthers(id));
    d.(windows := rest,
       activeWindowId := if d.activeWindowId == Some(id) then FallbackActive(d.windows) else d.activeWindowId)
  }

  /** Closing keeps the survivors in order: it splits over any cut of the list. */
  lemma CloseKeepsOrder(d: Desktop, id: string, front: seq<WindowState>, back: seq<WindowState>)
    requires d.windows == front + back
    ensures CloseWindow(d, id).windows
         == CloseWindow(d.(windows := front), id).windows + CloseWindow(d.(windows := back), id).windows
  {
    Seqs.FilterAppend(front, back, KeepOthers(id));
  }

  /** Closing the newest window undoes its opening, and the previous newest becomes active. */
  lemma OpenThenClose(d: Desktop, appId: string, now: nat, randomX: real, randomY: real)
    requires 0.0 <= randomX < 1.0 && 0.0 <= randomY < 1.0
    requires !HasId(d.windows, WindowId(appId, now))
    ensures var r := CloseWindow(OpenWindow(d, appId, now, randomX, randomY), WindowId(appId, now));
      && r.windows == d.windows
      && r.activeWindowId == (if |d.windows| > 0 && Truthy(d.windows[|d.windows| - 1].id)
                              then Some(d.windows[|d.windows| - 1].id) else None)
      && r.settings == d.settings
  {
    var id := WindowId(appId, now);
    var o := OpenWindow(d, appId, now, randomX, randomY);
    var w := o.windows[|d.windows|];
    assert o.windows == d.windows + [w];
    Seqs.FilterAppend(d.windows, [w], KeepOthers(id));
    assert Seqs.Filter([w], KeepOthers(id)) == [];
    assert Seqs.Filter(d.windows, KeepOthers(id)) == d.windows;
  }

  /**
   * Closing the newest window while it is active hands the active id to the
   * window just below it in the list, which survives the close.
   */
  lemma CloseNewestActivatesSurvivor(d: Desktop)
    requires UniqueIds(d.windows)
    requires |d.windows| >= 2 && Truthy(d.windows[|d.windows| - 2].id)
    requires d.activeWindowId == Some(d.windows[|d.windows| - 1].id)
    ensures var r := CloseWindow(d, d.windows[|d.windows| - 1].id);
      && r.activeWindowId == Some(d.windows[|d.windows| - 2].id)
      && d.windows[|d.windows| - 2] in r.windows
  {
    var n := |d.windows|;
    assert d.windows[n - 2].id != d.windows[n - 1].id;
    assert d.windows[n - 2] in d.windows;
  }

  /**
   * The fallback is taken from the list before removal, so it can name the
   * window just closed: with two windows and the first one active, closing it
   * leaves the active id pointing at no window.
   */
  lemma CloseMayLeaveDanglingActive(d: Desktop)
    requires |d.windows| == 2 && Truthy(d.windows[0].id)
    requires d.windows[0].id != d.windows[1].id
    requires d.activeWindowId == Some(d.windows[0].id)
    ensures var r := CloseWindow(d, d.windows[0].id);
      r.activeWindowId == Some(d.windows[0].id) && !HasId(r.windows, d.windows[0].id)
  {
  }

  // ---------------------------------------------------------------------------
  // focusWindow
  // ---------------------------------------------------------------------------

  function ZIndices(ws: seq<WindowState>): (zs: seq<int>)
    ensures |zs| == |ws|
    ensures forall i :: 0 <= i < |ws| ==> zs[i] == ws[i].zIndex
  {
    seq(|ws|, i requires 0 <= i < |ws| => ws[i].zIndex)
  }

  /** `Math.max(...windows.map(w => w.zIndex))`. */
  function TopZ(ws: seq<WindowState>): int
    requires |ws| > 0
  {
    ZOrder.Max(ZIndices(ws))
  }

  function Focused(w: WindowState, id: string, top: int): WindowState {
    w.(isFocused := w.id == id, zIndex := if w.id == id then top + 1 else w.zIndex)
  }

  /**
   * Marks exactly the windows with the id as focused and raises them to one
   * above the old maximum; does not look at or clear `isMinimized`.
   */
  function FocusWindow(d: Desktop, id: string): (r: Desktop)
    ensures |r.windows| == |d.windows|
    ensures forall i :: 0 <= i < |d.windows| ==> r.windows[i].isFocused == (d.windows[i].id == id)
    ensures forall i :: 0 <= i < |d.windows| ==>
      r.windows[i].(isFocused := d.windows[i].isFocused, zIndex := d.windows[i].zIndex) == d.windows[i]
    ensures forall i :: 0 <= i < |d.windows| && d.windows[i].id != id ==> r.windows[i].zIndex == d.windows[i].zIndex
    ensures forall i, j :: 0 <= i < |d.windows| && 0 <= j < |d.windows| && d.windows[i].id == id ==>
      r.windows[i].zIndex > d.windows[j].zIndex
    ensures forall i :: 0 <= i < |d.windows| && d.windows[i].id == id ==>
      exists j :: 0 <= j < |d.windows| && r.windows[i].zIndex == d.windows[j].zIndex + 1
    ensures r.activeWindowId == Some(id)
    ensures r.settings == d.settings
  {
    if |d.windows| == 0 then d.(activeWindowId := Some(id))
    else
      var top := TopZ(d.windows);
      var ws := seq(|d.windows|, i requires 0 <= i < |d.windows| => Focused(d.windows[i], id, top));
      assert forall i :: 0 <= i < |d.windows| && d.windows[i].id == id ==> ws[i].zIndex == top + 1;
      d.(windows := ws, activeWindowId := Some(id))
  }

  /** Window `k` is the only focused window and is strictly above all others. */
  predicate SoleFocusOnTop(ws: seq<WindowState>, k: int) {
    && 0 <= k < |ws|
    && ws[k].isFocused
    && forall i :: 0 <= i < |ws| && i != k ==> !ws[i].isFocused && ws[i].zIndex < ws[k].zIndex
  }

  /**
   * With unique ids, focusing a present window leaves it the only focused
   * window and strictly above every other window.
   */
  lemma FocusGivesUniqueTop(d: Desktop, k: nat)
    requires UniqueIds(d.windows)
    requires k < |d.windows|
    ensures SoleFocusOnTop(FocusWindow(d, d.windows[k].id).windows, k)
  {
    var id := d.windows[k].id;
    var ws := FocusWindow(d, id).windows;
    forall i | 0 <= i < |ws| && i != k
      ensures !ws[i].isFocused && ws[i].zIndex < ws[k].zIndex
    {
      assert d.windows[i].id != id;
      assert ws[i].zIndex == d.windows[i].zIndex;
    }
  }

  // ---------------------------------------------------------------------------
  // minimizeWindow / maximizeWindow
  // ---------------------------------------------------------------------------

  /** Sets `isMinimized` and clears `isFocused` on the windows with the id; the active id is kept. */
  function MinimizeWindow(d: Desktop, id: string): (r: Desktop)
    ensures |r.windows| == |d.windows|
    ensures forall i :: 0 <= i < |d.windows| && d.windows[i].id == id ==>
      r.windows[i].isMinimized && !r.windows[i].isFocused
    ensures forall i :: 0 <= i < |d.windows| ==>
      r.windows[i].(isMinimized := d.windows[i].isMinimized, isFocused := d.windows[i].isFocused) == d.windows[i]
    ensures forall i :: 0 <= i < |d.windows| && d.windows[i].id != id ==> r.windows[i] == d.windows[i]
    ensures r.activeWindowId == d.activeWindowId && r.settings == d.settings
  {
    var ws := seq(|d.windows|, i requires 0 <= i < |d.windows| =>
      var w := d.windows[i]; if w.id == id then w.(isMinimized := true, isFocused := false) else w);
    d.(windows := ws)
  }

  lemma {:induction false} MinimizeIdempotent(d: Desktop, id: string)
    ensures MinimizeWindow(MinimizeWindow(d, id), id) == MinimizeWindow(d, id)
  {
    var once := MinimizeWindow(d, id);
    var twice := MinimizeWindow(once, id);
    forall i | 0 <= i < |d.windows|
      ensures twice.windows[i] == once.windows[i]
    {
      assert once.windows[i].id == d.windows[i].id;
    }
  }

  /** Toggles `isMaximized` on the windows with the id and changes nothing else. */
  function MaximizeWindow(d: Desktop, id: string): (r: Desktop)
    ensures |r.windows| == |d.windows|
    ensures forall i :: 0 <= i < |d.windows| && d.windows[i].id == id ==>
      r.windows[i].isMaximized == !d.windows[i].isMaximized
    ensures forall i :: 0 <= i < |d.windows| ==>
      r.windows[i].(isMaximized := d.windows[i].isMaximized) == d.windows[i]
    ensures forall i :: 0 <= i < |d.windows| && d.windows[i].id != id ==> r.windows[i] == d.windows[i]
    ensures r.activeWindowId == d.activeWindowId && r.settings == d.settings
  {
    var ws := seq(|d.windows|, i requires 0 <= i < |d.windows| =>
      var w := d.windows[i]; if w.id == id then w.(isMaximized := !w.isMaximized) else w);
    d.(windows := ws)
  }

  lemma {:induction false} MaximizeTwiceIsIdentity(d: Desktop, id: string)
    ensures MaximizeWindow(MaximizeWindow(d, id), id) == d
  {
    var once := MaximizeWindow(d, id);
    var twice := MaximizeWindow(once, id);
    forall i | 0 <= i < |d.windows|
      ensures twice.windows[i] == d.windows[i]
    {
      assert once.windows[i].id == d.windows[i].id;
    }
  }

  // ---------------------------------------------------------------------------
  // updateSettings
  // ---------------------------------------------------------------------------

  /** The shallow merge `{ ...prev, ...updates }`. */
  function MergeSettings(s: DesktopSettings, p: SettingsPatch): (r: DesktopSettings)
    ensures r.theme == p.theme.GetOr(s.theme)
    ensures r.accentColor == p.accentColor.GetOr(s.accentColor)
    ensures r.wallpaper == p.wallpaper.GetOr(s.wallpaper)
    ensures r.dockPosition == p.dockPosition.GetOr(s.dockPosition)
    ensures r.dockSize == p.dockSize.GetOr(s.dockSize)
    ensures r.dockMagnification == p.dockMagnification.GetOr(s.dockMagnification)
    ensures r.dockAutoHide == p.dockAutoHide.GetOr(s.dockAutoHide)
  {
    DesktopSettings(
      p.theme.GetOr(s.theme),
      p.accentColor.GetOr(s.accentColor),
      p.wallpaper.GetOr(s.wallpaper),
      p.dockPosition.GetOr(s.dockPosition),
      p.dockSize.GetOr(s.dockSize),
      p.dockMagnification.GetOr(s.dockMagnification),
      p.dockAutoHide.GetOr(s.dockAutoHide))
  }

  /** Overwrites exactly the fields present in the update; windows are untouched. */
  function UpdateSettings(d: Desktop, p: SettingsPatch): (r: Desktop)
    ensures p == EmptyPatch ==> r == d
    ensures p.theme.Some? ==> r.settings.theme == p.theme.value
    ensures p.accentColor.Some? ==> r.settings.accentColor == p.accentColor.value
    ensures p.wallpaper.Some? ==> r.settings.wallpaper == p.wallpaper.value
    ensures p.dockPosition.Some? ==> r.settings.dockPosition == p.dockPosition.value
    ensures p.dockSize.Some? ==> r.settings.dockSize == p.dockSize.value
    ensures p.dockMagnification.Some? ==> r.settings.dockMagnification == p.dockMagnification.value
    ensures p.dockAutoHide.Some? ==> r.settings.dockAutoHide == p.dockAutoHide.value
    ensures p.theme.None? ==> r.settings.theme == d.settings.theme
    ensures p.accentColor.None? ==> r.settings.accentColor == d.settings.accentColor
    ensures p.wallpaper.None? ==> r.settings.wallpaper == d.settings.wallpaper
    ensures p.dockPosition.None? ==> r.settings.dockPosition == d.settings.dockPosition
    ensures p.dockSize.None? ==> r.settings.dockSize == d.settings.dockSize
    ensures p.dockMagnification.None? ==> r.settings.dockMagnification == d.settings.dockMagnification
    ensures p.dockAutoHide.None? ==> r.settings.dockAutoHide == d.settings.dockAutoHide
    ensures r.windows == d.windows && r.activeWindowId == d.activeWindowId
  {
    d.(settings := MergeSettings(d.settings, p))
  }

  lemma UpdateSettingsIdempotent(d: Desktop, p: SettingsPatch)
    ensures UpdateSettings(UpdateSettings(d, p), p) == UpdateSettings(d, p)
  {
  }

  // ---------------------------------------------------------------------------
  // The context's mutators as one transition function
  // ---------------------------------------------------------------------------

  /** What the environment supplies to an `openWindow` call: the clock and two random draws. */
  datatype Env = Env(now: nat, randomX: real, randomY: real)

  predicate ValidEnv(e: Env) {
    0.0 <= e.randomX < 1.0 && 0.0 <= e.randomY < 1.0
  }

  /**
   * Applies one mutator. The settings change only through `updateSettings`,
   * and `updateSettings` touches neither the windows nor the active id.
   */
  function Dispatch(d: Desktop, intent: Intent, env: Env): (r: Desktop)
    requires ValidEnv(env)
    ensures !intent.UpdateSettings? ==> r.settings == d.settings
    ensures intent.UpdateSettings? ==> r.windows == d.windows && r.activeWindowId == d.activeWindowId
    ensures intent.OpenWindow? ==> |r.windows| == |d.windows| + 1 && r.windows[..|d.windows|] == d.windows
    ensures intent.CloseWindow? ==> |r.windows| <= |d.windows|
    ensures intent.FocusWindow? || intent.MinimizeWindow? || intent.MaximizeWindow? ==>
      |r.windows| == |d.windows| && forall i :: 0 <= i < |d.windows| ==> r.windows[i].id == d.windows[i].id
    ensures intent.MinimizeWindow? || intent.MaximizeWindow? ==> r.activeWindowId == d.activeWindowId
  {
    match intent
    case OpenWindow(appId) => OpenWindow(d, appId, env.now, env.randomX, env.randomY)
    case CloseWindow(id) => CloseWindow(d, id)
    case FocusWindow(id) => FocusWindow(d, id)
    case MinimizeWindow(id) => MinimizeWindow(d, id)
    case MaximizeWindow(id) => MaximizeWindow(d, id)
    case UpdateSettings(p) => UpdateSettings(d, p)
  }

  // ---------------------------------------------------------------------------
  // Scenarios
  // ---------------------------------------------------------------------------

  /** Open A, open B, close B: only A is left and A is active again. */
  lemma OpenOpenCloseRefocusesFirst(wallpaper: Option<string>, a: string, b: string, t1: nat, t2: nat, x: real, y: real)
    requires 0.0 <= x < 1.0 && 0.0 <= y < 1.0
    requires WindowId(a, t1) != WindowId(b, t2)
    ensures var d1 := OpenWindow(Initial(wallpaper), a, t1, x, y);
      var d2 := OpenWindow(d1, b, t2, x, y);
      var d3 := CloseWindow(d2, WindowId(b, t2));
      && d3.windows == d1.windows
      && d3.activeWindowId == Some(WindowId(a, t1))
  {
    var d1 := OpenWindow(Initial(wallpaper), a, t1, x, y);
    OpenThenClose(d1, b, t2, x, y);
    WindowIdTruthy(a, t1);
  }

  /** Open A, open B, focus A: A rises to 3 and is the only focused window. */
  lemma OpenOpenFocusFirst(wallpaper: Option<string>, a: string, b: string, t1: nat, t2: nat, x: real, y: real)
    requires 0.0 <= x < 1.0 && 0.0 <= y < 1.0
    requires WindowId(a, t1) != WindowId(b, t2)
    ensures var d2 := OpenWindow(OpenWindow(Initial(wallpaper), a, t1, x, y), b, t2, x, y);
      var d3 := FocusWindow(d2, WindowId(a, t1));
      && |d3.windows| == 2
      && d3.windows[0].zIndex == 3 && d3.windows[0].isFocused
      && d3.windows[1].zIndex == 2 && !d3.windows[1].isFocused
  {
    var d1 := OpenWindow(Initial(wallpaper), a, t1, x, y);
    var d2 := OpenWindow(d1, b, t2, x, y);
    assert d2.windows[0] == d1.windows[0];
    assert d2.windows[0].zIndex == 1 && d2.windows[1].zIndex == 2;
  }

  /**
   * Open stacks at `length + 1`, not above the current maximum: after open A,
   * open B, focus A, a third window C lands at the same z-index as A.
   */
  lemma OpenAfterFocusTies(wallpaper: Option<string>, a: string, b: string, c: string, t1: nat, t2: nat, t3: nat, x: real, y: real)
    requires 0.0 <= x < 1.0 && 0.0 <= y < 1.0
    requires WindowId(a, t1) != WindowId(b, t2)
    ensures var d2 := OpenWindow(OpenWindow(Initial(wallpaper), a, t1, x, y), b, t2, x, y);
      var d4 := OpenWindow(FocusWindow(d2, WindowId(a, t1)), c, t3, x, y);
      d4.windows[2].zIndex == d4.windows[0].zIndex == 3
  {
    var d1 := OpenWindow(Initial(wallpaper), a, t1, x, y);
    var d2 := OpenWindow(d1, b, t2, x, y);
    OpenOpenFocusFirst(wallpaper, a, b, t1, t2, x, y);
    var d3 := FocusWindow(d2, WindowId(a, t1));
    var d4 := OpenWindow(d3, c, t3, x, y);
    assert d4.windows[0] == d4.windows[..3 - 1][0];
  }
}
