/**
 * The demo application's own window manager and shell (demo/main.tsx). It
 * keeps a smaller window record than the library (no focus or maximize
 * flags, no active id), cascades new windows instead of placing them at
 * random, and refuses app ids the registry does not know. The registry and
 * the app components come from an external package and are parameters here.
 */
module Demo {
  import opened Wrappers
  import opened Types
  import Seqs
  import ZOrder
  import ZDesktop
  import LockScreen

  datatype DemoWindow = DemoWindow(
    id: string,
    appId: string,
    title: string,
    position: Point,
    size: Size,
    zIndex: int,
    isMinimized: bool)

  /** A registry entry; only the id and the display name matter here. */
  datatype AppManifest = AppManifest(id: string, name: string)

  datatype DemoState = DemoState(booting: bool, locked: bool, windows: seq<DemoWindow>, spotlightOpen: bool)

  /** The boot animation is skipped in the demo. */
  const Initial := DemoState(false, false, [], false)

  /** The app ids the demo knows how to render. */
  const AppComponents: set<string> := {
    "ai.hanzo.calculator", "ai.hanzo.terminal", "ai.hanzo.notes", "ai.hanzo.textpad",
    "ai.hanzo.clock", "ai.hanzo.calendar", "ai.hanzo.weather", "ai.hanzo.photos",
    "ai.hanzo.music", "ai.hanzo.stickies", "ai.hanzo.preferences", "ai.hanzo.appstore"
  }

  const DockCapacity := 8

  // ---------------------------------------------------------------------------
  // openApp
  // ---------------------------------------------------------------------------

  /** `registry.find(a => a.id === appId)`: the first entry with the id. */
  function FindManifest(registry: seq<AppManifest>, appId: string): (r: Option<AppManifest>)
    ensures r.None? <==> forall i :: 0 <= i < |registry| ==> registry[i].id != appId
    ensures r.Some? ==> r.value.id == appId
    ensures r.Some? ==> exists i :: (0 <= i < |registry| && registry[i] == r.value
      && forall j :: 0 <= j < i ==> registry[j].id != appId)
  {
    if |registry| == 0 then None
    else if registry[0].id == appId then Some(registry[0])
    else
      var rest := FindManifest(registry[1..], appId);
      if rest.Some? then
        ghost var i :| 0 <= i < |registry[1..]| && registry[1..][i] == rest.value
          && forall j :: 0 <= j < i ==> registry[1..][j].id != appId;
        assert registry[i + 1] == rest.value;
        rest
      else rest
  }

  /** Horizontal cascade offset for the n-th window. */
  function CascadeX(n: nat): int {
    100 + (n * 30) % 200
  }

  /** Vertical cascade offset for the n-th window. */
  function CascadeY(n: nat): int {
    50 + (n * 30) % 150
  }

  /** The cascade stays in a 190 x 120 box and reaches both far edges. */
  lemma CascadeBounds(n: nat)
    ensures 100 <= CascadeX(n) <= 290
    ensures 50 <= CascadeY(n) <= 170
    ensures CascadeX(13) == 290 && CascadeY(4) == 170
  {
    var t := n * 30;
    var qx, rx := t / 200, t % 200;
    assert t == 200 * qx + rx;
    var jx := 3 * n - 20 * qx;
    assert rx == 10 * jx;
    assert jx <= 19;
    var qy, ry := t / 150, t % 150;
    assert t == 150 * qy + ry;
    var jy := n - 5 * qy;
    assert ry == 30 * jy;
    assert jy <= 4;
  }

  /**
   * Opens a 700x500 window for a registered app, cascaded by the number of
   * open windows, and closes the spotlight. Unknown app ids change nothing.
   */
  function OpenApp(st: DemoState, registry: seq<AppManifest>, appId: string, now: nat): (r: DemoState)
    ensures FindManifest(registry, appId).None? ==> r == st
    ensures FindManifest(registry, appId).Some? ==>
      && |r.windows| == |st.windows| + 1
      && r.windows[..|st.windows|] == st.windows
      && !r.spotlightOpen && r.locked == st.locked && r.booting == st.booting
      && var w := r.windows[|st.windows|];
         && w.id == ZDesktop.WindowId(appId, now) && w.appId == appId
         && w.title == FindManifest(registry, appId).value.name
         && w.position == Point(CascadeX(|st.windows|) as real, CascadeY(|st.windows|) as real)
         && w.size == Size(700, 500)
         && w.zIndex == |st.windows| + 1
         && !w.isMinimized
  {
    match FindManifest(registry, appId)
    case None => st
    case Some(manifest) =>
      var n := |st.windows|;
      var w := DemoWindow(
        ZDesktop.WindowId(appId, now), appId, manifest.name,
        Point(CascadeX(n) as real, CascadeY(n) as real), Size(700, 500), n + 1, false);
      assert (st.windows + [w])[..n] == st.windows;
      st.(windows := st.windows + [w], spotlightOpen := false)
  }

  // ---------------------------------------------------------------------------
  // closeWindow / focusWindow / minimizeWindow
  // ---------------------------------------------------------------------------

  function KeepOthers(id: string): DemoWindow -> bool {
    (w: DemoWindow) => w.id != id
  }

  /** Removes every window with the id, keeping the rest in order. */
  function CloseWindow(st: DemoState, id: string): (r: DemoState)
    ensures forall w :: w in r.windows <==> w in st.windows && w.id != id
    ensures (forall i :: 0 <= i < |st.windows| ==> st.windows[i].id != id) ==> r == st
    ensures r.(windows := st.windows) == st
  {
    st.(windows := Seqs.Filter(st.windows, KeepOthers(id)))
  }

  /** Closing splits over any cut of the list, so the survivors keep their relative order. */
  lemma CloseKeepsOrder(st: DemoState, id: string, front: seq<DemoWindow>, back: seq<DemoWindow>)
    requires st.windows == front + back
    ensures CloseWindow(st, id).windows
         == CloseWindow(st.(windows := front), id).windows + CloseWindow(st.(windows := back), id).windows
  {
    Seqs.FilterAppend(front, back, KeepOthers(id));
  }

  /** On a single window, closing removes it exactly when the id matches. */
  lemma CloseOneWindow(st: DemoState, id: string, w: DemoWindow)
    ensures CloseWindow(st.(windows := [w]), id).windows == if w.id == id then [] else [w]
  {
    assert [w][1..] == [];
  }

  /** Raises the windows with the id to one above the old maximum; nothing else changes. */
  function FocusWindow(st: DemoState, id: string): (r: DemoState)
    ensures |r.windows| == |st.windows|
    ensures forall i :: 0 <= i < |st.windows| ==> r.windows[i].(zIndex := st.windows[i].zIndex) == st.windows[i]
    ensures forall i :: 0 <= i < |st.windows| && st.windows[i].id != id ==> r.windows[i] == st.windows[i]
    ensures forall i, j :: 0 <= i < |st.windows| && 0 <= j < |st.windows| && st.windows[i].id == id ==>
      r.windows[i].zIndex > st.windows[j].zIndex
    ensures forall i :: 0 <= i < |st.windows| && st.windows[i].id == id ==>
      exists j :: 0 <= j < |st.windows| && r.windows[i].zIndex == st.windows[j].zIndex + 1
    ensures r.(windows := st.windows) == st
  {
    if |st.windows| == 0 then st
    else
      var zs := seq(|st.windows|, i requires 0 <= i < |st.windows| => st.windows[i].zIndex);
      var top := ZOrder.Max(zs);
      assert forall j :: 0 <= j < |st.windows| ==> zs[j] == st.windows[j].zIndex;
      var ws := seq(|st.windows|, i requires 0 <= i < |st.windows| =>
        var w := st.windows[i]; if w.id == id then w.(zIndex := top + 1) else w);
      assert forall i :: 0 <= i < |st.windows| && st.windows[i].id == id ==> ws[i].zIndex == top + 1;
      st.(windows := ws)
  }

  /** Sets `isMinimized` on the windows with the id and nothing else. */
  function MinimizeWindow(st: DemoState, id: string): (r: DemoState)
    ensures |r.windows| == |st.windows|
    ensures forall i :: 0 <= i < |st.windows| ==>
      r.windows[i] == (if st.windows[i].id == id then st.windows[i].(isMinimized := true) else st.windows[i])
    ensures r.(windows := st.windows) == st
  {
    var ws := seq(|st.windows|, i requires 0 <= i < |st.windows| =>
      var w := st.windows[i]; if w.id == id then w.(isMinimized := true) else w);
    st.(windows := ws)
  }

  /** Minimizing twice is the same as minimizing once. */
  lemma MinimizeIdempotent(st: DemoState, id: string)
    ensures MinimizeWindow(MinimizeWindow(st, id), id) == MinimizeWindow(st, id)
  {
    var once := MinimizeWindow(st, id);
    var twice := MinimizeWindow(once, id);
    assert twice.windows == once.windows;
  }

  /**
   * Minimizing takes exactly the windows with the id off the screen: what is
   * drawn afterwards is what was drawn before, minus those windows, in order.
   */
  lemma {:induction false} MinimizeHidesOnlyTarget(st: DemoState, id: string)
    ensures RenderedWindows(MinimizeWindow(st, id).windows)
         == Seqs.Filter(RenderedWindows(st.windows), KeepOthers(id))
    decreases |st.windows|
  {
    if |st.windows| > 0 {
      var ws := st.windows;
      var m := MinimizeWindow(st, id).windows;
      var rest := st.(windows := ws[1..]);
      MinimizeHidesOnlyTarget(rest, id);
      assert m[1..] == MinimizeWindow(rest, id).windows;
      var shown := RenderedWindows(ws);
      if Renderable(ws[0]) {
        assert shown == [ws[0]] + RenderedWindows(ws[1..]);
        Seqs.FilterAppend([ws[0]], RenderedWindows(ws[1..]), KeepOthers(id));
        assert Seqs.Filter([ws[0]], KeepOthers(id)) == if ws[0].id == id then [] else [ws[0]] by {
          assert [ws[0]][1..] == [];
        }
      } else {
        assert shown == RenderedWindows(ws[1..]);
      }
    }
  }

  // ---------------------------------------------------------------------------
  // Keyboard shortcuts
  // ---------------------------------------------------------------------------

  /** Meta+Space toggles the spotlight; Meta+L locks; every other key is ignored. */
  function HandleKeyDown(st: DemoState, e: KeyEvent): (r: DemoState)
    ensures e.metaKey && e.code == "Space" ==> r == st.(spotlightOpen := !st.spotlightOpen)
    ensures e.metaKey && e.code == "KeyL" ==> r == st.(locked := true)
    ensures !e.metaKey || (e.code != "Space" && e.code != "KeyL") ==> r == st
  {
    var afterSpace := if e.metaKey && e.code == "Space" then st.(spotlightOpen := !st.spotlightOpen) else st;
    if e.metaKey && e.code == "KeyL" then afterSpace.(locked := true) else afterSpace
  }

  /** Pressing Meta+Space twice restores the spotlight's visibility. */
  lemma SpotlightToggleTwice(st: DemoState, e: KeyEvent)
    requires e.metaKey && e.code == "Space"
    ensures HandleKeyDown(HandleKeyDown(st, e), e) == st
  {
  }

  /** Escape in the spotlight's input closes it; other keys do nothing. */
  function SpotlightInputKey(st: DemoState, e: KeyEvent): (r: DemoState)
    ensures e.key == "Escape" ==> !r.spotlightOpen
    ensures r.(spotlightOpen := st.spotlightOpen) == st
    ensures e.key != "Escape" ==> r == st
  {
    if e.key == "Escape" then st.(spotlightOpen := false) else st
  }

  /** Opening the spotlight with Meta+Space and pressing Escape in it returns to where the user started. */
  lemma OpenThenEscapeRestores(st: DemoState, e: KeyEvent, esc: KeyEvent)
    requires !st.spotlightOpen && e.metaKey && e.code == "Space" && esc.key == "Escape"
    ensures HandleKeyDown(st, e).spotlightOpen
    ensures SpotlightInputKey(HandleKeyDown(st, e), esc) == st
  {
  }

  // ---------------------------------------------------------------------------
  // Dock projection and window rendering
  // ---------------------------------------------------------------------------

  datatype DemoDockItem = DemoDockItem(id: string, name: string, isRunning: bool)

  predicate Running(windows: seq<DemoWindow>, appId: string) {
    exists w :: w in windows && w.appId == appId
  }

  /** The first eight registry apps, in order, each marked running iff some window belongs to it. */
  function DockItems(registry: seq<AppManifest>, windows: seq<DemoWindow>): (items: seq<DemoDockItem>)
    ensures |items| == if |registry| < DockCapacity then |registry| else DockCapacity
    ensures forall i :: 0 <= i < |items| ==>
      && items[i].id == registry[i].id
      && items[i].name == registry[i].name
      && (items[i].isRunning <==> Running(windows, registry[i].id))
  {
    var shown := if |registry| < DockCapacity then registry else registry[..DockCapacity];
    seq(|shown|, i requires 0 <= i < |shown| =>
      DemoDockItem(shown[i].id, shown[i].name, Running(windows, shown[i].id)))
  }

  /** Opening a docked app lights its running dot. */
  lemma OpenAppMarksDockRunning(st: DemoState, registry: seq<AppManifest>, i: nat, now: nat)
    requires i < |registry| && i < DockCapacity
    ensures DockItems(registry, OpenApp(st, registry, registry[i].id, now).windows)[i].isRunning
  {
    var a := registry[i].id;
    var r := OpenApp(st, registry, a, now);
    assert FindManifest(registry, a).Some?;
    assert r.windows[|st.windows|] in r.windows;
  }

  /** Closing the last window of a docked app turns its running dot off. */
  lemma CloseLastWindowStopsRunning(st: DemoState, registry: seq<AppManifest>, i: nat, id: string)
    requires i < |registry| && i < DockCapacity
    requires forall w :: w in st.windows && w.appId == registry[i].id ==> w.id == id
    ensures !DockItems(registry, CloseWindow(st, id).windows)[i].isRunning
  {
  }

  predicate Renderable(w: DemoWindow) {
    !w.isMinimized && w.appId in AppComponents
  }

  /** The windows drawn: not minimized, and with a component for their app. */
  function RenderedWindows(windows: seq<DemoWindow>): (shown: seq<DemoWindow>)
    ensures forall w :: w in shown <==> w in windows && !w.isMinimized && w.appId in AppComponents
  {
    Seqs.Filter(windows, Renderable)
  }

  /** Opening two renderable registered apps leaves a window of each on screen. */
  lemma OpenTwoAppsBothRendered(st: DemoState, registry: seq<AppManifest>, a: string, b: string, t1: nat, t2: nat)
    requires FindManifest(registry, a).Some? && FindManifest(registry, b).Some?
    requires a in AppComponents && b in AppComponents
    ensures var r := OpenApp(OpenApp(st, registry, a, t1), registry, b, t2);
      && (exists w :: w in RenderedWindows(r.windows) && w.appId == a)
      && (exists w :: w in RenderedWindows(r.windows) && w.appId == b)
      && Running(r.windows, a) && Running(r.windows, b)
  {
    var s1 := OpenApp(st, registry, a, t1);
    var s2 := OpenApp(s1, registry, b, t2);
    var wa := s1.windows[|st.windows|];
    var wb := s2.windows[|s1.windows|];
    assert wa == s2.windows[..|s1.windows|][|st.windows|];
    assert wa in s2.windows && wb in s2.windows;
    assert wa in RenderedWindows(s2.windows) && wb in RenderedWindows(s2.windows);
  }

  // ---------------------------------------------------------------------------
  // Which screen is shown
  // ---------------------------------------------------------------------------

  datatype View = BootScreen | LockScreenShown(visible: bool) | DesktopScreen

  /**
   * The shell as written: the lock screen is given `username` and `time`
   * but not `isLocked`, so the component sees `isLocked` undefined and
   * renders nothing.
   */
  function ViewAsWritten(st: DemoState): (s: View)
    ensures st.booting ==> s == BootScreen
    ensures !st.booting && st.locked ==> s == LockScreenShown(false)
    ensures !st.booting && !st.locked ==> s == DesktopScreen
  {
    if st.booting then BootScreen
    else if st.locked then
      LockScreenShown(LockScreen.Rendered(LockScreen.MakeProps(false, None, None)))
    else DesktopScreen
  }

  /** Meta+L on the desktop, as written, blanks the screen, and no key ever unlocks it. */
  lemma LockAsWrittenBlanksScreen(st: DemoState, e: KeyEvent, later: KeyEvent)
    requires !st.booting && e.metaKey && e.code == "KeyL"
    ensures ViewAsWritten(HandleKeyDown(st, e)) == LockScreenShown(false)
    ensures HandleKeyDown(HandleKeyDown(st, e), later).locked
  {
  }

  /** The shell with `isLocked` passed through, as the lock screen's props require. */
  function CurrentView(st: DemoState): (s: View)
    ensures st.booting ==> s == BootScreen
    ensures !st.booting && st.locked ==> s == LockScreenShown(true)
    ensures !st.booting && !st.locked ==> s == DesktopScreen
  {
    if st.booting then BootScreen
    else if st.locked then
      LockScreenShown(LockScreen.Rendered(LockScreen.MakeProps(st.locked, Some("User"), None)))
    else DesktopScreen
  }

  /** The demo's `onUnlock` handler. */
  function Unlock(st: DemoState, call: LockScreen.UnlockCall): (r: DemoState)
    ensures call.Called? ==> !r.locked && r.(locked := st.locked) == st
    ensures call.NotCalled? ==> r == st
  {
    if call.Called? then st.(locked := false) else st
  }

  /** With the prop passed, Meta+L shows the lock screen and its unlock button returns to the desktop. */
  lemma LockThenUnlockRestoresDesktop(st: DemoState, e: KeyEvent)
    requires !st.booting && !st.locked && e.metaKey && e.code == "KeyL"
    ensures var locked := HandleKeyDown(st, e);
      && CurrentView(locked) == LockScreenShown(true)
      && var submitted := LockScreen.Submit(LockScreen.Initial, LockScreen.DefaultRequirePassword);
         && Unlock(locked, submitted.unlock) == st
         && CurrentView(Unlock(locked, submitted.unlock)) == DesktopScreen
  {
  }
}
