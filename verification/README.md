# A verified model of the z-os desktop shell

The z-os desktop is a simulated desktop rendered in the browser. It has a
window manager, a dock, a menu bar, a spotlight search, an app switcher, a
lock screen and a boot animation. Most of the code is React rendering.
Under the rendering sit small, pure state transitions. This project models
those transitions in Dafny and proves properties about them.

- The window manager of the library (`ZDesktop`). Its state is a list of
  window records, a nullable active-window id and a settings record. The six
  context mutators are open, close, focus, minimize, maximize and update
  settings. Each is a pure function on that state, and `ZDesktop.Dispatch`
  applies any of the six.
- The demo application's own window manager and shell (`Demo`). It uses a
  smaller window record, cascades new windows, and refuses unknown app ids.
  It also holds the keyboard shortcuts, the dock projection, the render
  filter and the choice of screen.
- Two bounded-index cyclers. The app switcher (`AppSwitcher`) wraps modulo
  the number of non-minimized windows. The spotlight (`Spotlight`) clamps
  its selection to the result list.
- Three small event-driven machines: the menu bar's open menu (`ZMenuBar`),
  the lock screen's submit rule (`LockScreen`) and the boot animation
  (`BootSequence`). Timers are explicit events.
- The dock's magnification table and item rendering (`ZDock`, `DockItem`).
- The settings panel's controls (`SettingsPanel`). Each control emits a
  one-field update from a fixed domain.

Helper modules: `Wrappers` (Option), `Decimal` (number printing, with its
inverse), `Seqs` (filter), `ZOrder` (`Math.max`) and `Types` (the records of
`src/types.ts`, plus the `Intent` type for the six mutators).

The model follows the code as written, even where a window manager would
usually behave otherwise:

- `openWindow` stacks a new window at `length + 1`, not above the current
  maximum. It also leaves older windows focused. `ZDesktop.OpenAfterFocusTies`
  shows a tie in z-index, and `ZDesktop.OpenKeepsOlderFocus` shows two focused
  windows.
- `focusWindow` neither checks nor clears `isMinimized`. It sets the active
  id even when no window has that id.
- `closeWindow` takes the new active id from index `length - 2` of the list
  before removal. That id can be the window just closed:
  `ZDesktop.CloseMayLeaveDanglingActive`.
- The demo cascades windows with `100 + (30n mod 200)` and
  `50 + (30n mod 150)`. So x ranges over [100, 290] (290 at n = 13) and y
  over [50, 170].
- With no results, the spotlight's ArrowDown sets the selection to -1.
- The boot sequence's logo timer can fire after the completion timer. That
  happens when the duration is under 500, and the phase goes back from
  complete to loading.

So the model does not promise a single focused window, a new window above
all others, a focus call that refuses a minimized window, or a close that
always hands focus to a surviving window: the code does none of these.

Nondeterministic values are parameters. `Date.now()` is `now: nat` and
`Math.random()` is `randomX`/`randomY` in [0, 1). The app registry, the
app components, the search callback and all caller callbacks are
parameters or opaque `ActionId` tokens.

## Model

| member | source | states |
|---|---|---|
| ZDesktop.WindowIdInjective | src/ZDesktop.tsx:31 | ids `${appId}-${now}` from different (app, timestamp) pairs differ, so uniqueness depends only on timestamps |
| ZDesktop.OpenFromInitial | src/ZDesktop.tsx:22-42 | the first window opened after mount is the only window: focused, at z-index 1, and active; the settings stay the mount-time ones |
| ZDesktop.OpenWindow | src/ZDesktop.tsx:29-42 | appends exactly one record and keeps the earlier ones; the new window is titled with the app id, not minimized or maximized, focused, 800x600, placed in [100,200)x[50,100), stacked at old length + 1, and becomes active |
| ZDesktop.OpenKeepsIdsUnique | src/ZDesktop.tsx:29-42 | opening under an id not already present keeps all ids distinct |
| ZDesktop.OpenKeepsOlderFocus | src/ZDesktop.tsx:36 | open does not clear older focus flags, so two windows can be focused at once |
| ZDesktop.CloseWindow | src/ZDesktop.tsx:45-50 | keeps exactly the records whose id differs, leaves the list unchanged if the id is absent; closing the active window moves the active id to the fallback, closing another leaves it |
| ZDesktop.CloseKeepsOrder | src/ZDesktop.tsx:46 | closing splits over any cut of the list, so survivors keep their relative order |
| ZDesktop.OpenThenClose | src/ZDesktop.tsx:29-50 | closing the window just opened restores the list; the previously newest window becomes active |
| ZDesktop.CloseNewestActivatesSurvivor | src/ZDesktop.tsx:45-49 | with unique ids, closing the active newest window hands the active id to the window just below it in the list, and that window survives |
| ZDesktop.CloseMayLeaveDanglingActive | src/ZDesktop.tsx:47-48 | with two windows and the first active, closing the first leaves the active id naming a window that no longer exists |
| ZOrder.Max | src/ZDesktop.tsx:56 | the maximum is at least every element and equal to one of them |
| Seqs.Filter | src/ZDesktop.tsx:46 | the result holds exactly the elements that pass, and is the input when all pass |
| ZDesktop.FocusWindow | src/ZDesktop.tsx:52-59 | length and all other fields preserved; focused exactly where the id matches; matching windows go to one above the old maximum z-index, others keep theirs; the active id becomes the id |
| ZDesktop.FocusGivesUniqueTop | src/ZDesktop.tsx:52-59 | with unique ids, the focused window is the only focused one and strictly above every other |
| ZDesktop.MinimizeWindow | src/ZDesktop.tsx:61-65 | sets minimized and clears focus on the target only; position, size, z-index, maximized and the active id are unchanged |
| ZDesktop.MinimizeIdempotent | src/ZDesktop.tsx:61-65 | minimizing twice is the same as once |
| ZDesktop.MaximizeWindow | src/ZDesktop.tsx:67-71 | toggles the target's maximized flag and changes nothing else |
| ZDesktop.MaximizeTwiceIsIdentity | src/ZDesktop.tsx:67-71 | maximizing twice gives back the original state |
| ZDesktop.UpdateSettings | src/ZDesktop.tsx:73-75 | every field present in the update is overwritten and every absent field keeps its value; an empty update is the identity; windows and active id are untouched |
| ZDesktop.UpdateSettingsIdempotent | src/ZDesktop.tsx:73-75 | applying the same update twice is the same as once |
| ZDesktop.Dispatch | src/types.ts:50-60 | of the six mutators only updateSettings changes settings and it touches nothing else; open appends, close never grows the list, focus/minimize/maximize keep the ids in place |
| ZDesktop.OpenOpenCloseRefocusesFirst | src/ZDesktop.tsx:29-50 | open A, open B, close B leaves only A, and A is active again |
| ZDesktop.OpenOpenFocusFirst | src/ZDesktop.tsx:29-59 | open A, open B, focus A puts A at 3 and focused, B at 2 and unfocused |
| ZDesktop.OpenAfterFocusTies | src/ZDesktop.tsx:39 | after open A, open B, focus A, a third window opens at the same z-index as A |
| Demo.FindManifest | demo/main.tsx:90-92 | finds the first registry entry with the id, and none exactly when no entry has it |
| Demo.CascadeBounds | demo/main.tsx:98-101 | x stays in [100,290] and y in [50,170]; x reaches 290 at n = 13 and y reaches 170 at n = 4 |
| Demo.OpenApp | demo/main.tsx:90-108 | an unknown app changes nothing; otherwise one 700x500 window with the manifest name is appended at the cascade position with z = n + 1, not minimized, and the spotlight closes |
| Demo.CloseWindow | demo/main.tsx:110-112 | the survivors are exactly the windows with another id; an absent id changes nothing; only the window list changes |
| Demo.CloseKeepsOrder | demo/main.tsx:111 | closing splits over any cut of the list, so survivors keep their relative order |
| Demo.CloseOneWindow | demo/main.tsx:111 | on one window, closing removes it exactly when the id matches; with Demo.CloseKeepsOrder this fixes the result list |
| Demo.FocusWindow | demo/main.tsx:114-119 | only z-index changes: matching windows go to one above the old maximum, others keep theirs |
| Demo.MinimizeIdempotent | demo/main.tsx:121-125 | minimizing twice is the same as once |
| Demo.MinimizeHidesOnlyTarget | demo/main.tsx:121-125 | after minimizing, the windows drawn are those drawn before minus the ones with the id, in the same order |
| Demo.SpotlightToggleTwice | demo/main.tsx:76-79 | two Meta+Space presses restore the spotlight's visibility |
| Demo.OpenThenEscapeRestores | demo/main.tsx:74-85 | Meta+Space opens the demo's spotlight and Escape in its input (line 224) returns to the starting state |
| Demo.RenderedWindows | demo/main.tsx:174-177 | a window is drawn iff it is not minimized and its app has a component |
| Demo.OpenTwoAppsBothRendered | demo/main.tsx:174-177 | opening two registered, renderable apps leaves a drawn, running window of each |
| Demo.OpenAppMarksDockRunning | demo/main.tsx:149-156 | opening one of the first eight registry apps marks its dock item running |
| Demo.CloseLastWindowStopsRunning | demo/main.tsx:149-156 | closing the only window id an app has clears its dock item's running mark |
| Demo.ViewAsWritten | demo/main.tsx:127-147 | as written: booting shows the boot screen, locked shows a lock screen that renders nothing, else the desktop |
| Demo.LockAsWrittenBlanksScreen | demo/main.tsx:138-147 | as written, Meta+L on the desktop shows nothing and no key press unlocks |
| Demo.CurrentView | demo/main.tsx:127-147 | with `isLocked` passed through, the locked state shows a visible lock screen |
| Demo.LockThenUnlockRestoresDesktop | demo/main.tsx:138-147 | with the prop passed, Meta+L shows the lock screen and its button returns to the same desktop state |
| LockScreen.Submit | src/LockScreen.tsx:29-43 | without a password onUnlock() is called with no argument; with one, onUnlock("password") is called iff the input is "password", otherwise the input is cleared and the error flag set |
| LockScreen.DefaultPropsUnlockWithoutPassword | src/LockScreen.tsx:12-45 | with the optional props omitted the screen shows iff locked, greets "User", and any submit calls onUnlock() with no argument whatever was typed |
| LockScreen.FailuresAreMemoryless | src/LockScreen.tsx:35-38 | every failed submit leads to the same state, so there is no attempt limit |
| LockScreen.RetryAfterFailureUnlocks | src/LockScreen.tsx:31-38 | after a failure the timer clears the error and the right password still unlocks |
| AppSwitcher.RunningApps | src/AppSwitcher.tsx:14 | the candidates are exactly the non-minimized windows, and all windows when none is minimized |
| AppSwitcher.RunningAppsKeepOrder | src/AppSwitcher.tsx:14 | the candidates keep list order: the filter splits over concatenation and keeps a single window iff it is not minimized |
| AppSwitcher.JsRem | src/AppSwitcher.tsx:29-31 | JavaScript's remainder agrees with the Euclidean one on non-negative dividends and stays within (-n, n) |
| AppSwitcher.Next | src/AppSwitcher.tsx:31 | from a non-negative selection, next lands in [0, n) |
| AppSwitcher.Prev | src/AppSwitcher.tsx:29 | from a non-negative selection, previous lands in [0, n) |
| AppSwitcher.NextPrevInverse | src/AppSwitcher.tsx:29-31 | next then previous, and previous then next, are the identity on [0, n) |
| AppSwitcher.NextTimesAdvances | src/AppSwitcher.tsx:31 | k nexts from i land on (i + k) mod n |
| AppSwitcher.FullCycleReturns | src/AppSwitcher.tsx:31 | n consecutive nexts return to the start |
| AppSwitcher.FourPressesOnThreeWindows | src/AppSwitcher.tsx:31 | with three windows, four presses land where one does |
| AppSwitcher.KeyDown | src/AppSwitcher.tsx:22-34 | keys are ignored while closed; Meta+Tab moves next, Shift+Meta+Tab previous; the selection stays non-negative and lands in [0, n) |
| AppSwitcher.KeyUp | src/AppSwitcher.tsx:36-43 | releasing Meta while open always closes and focuses the selected candidate iff that index exists; other releases change nothing |
| AppSwitcher.OpenThenReleaseFocusesFirst | src/AppSwitcher.tsx:16-43 | opening and releasing Meta at once focuses the first candidate in list order and closes |
| AppSwitcher.ClickActsLikeRelease | src/AppSwitcher.tsx:36-66 | clicking entry k reports the same window as selecting k and releasing Meta, and both close |
| AppSwitcher.Shown | src/AppSwitcher.tsx:54 | the overlay is drawn iff open and some window is not minimized |
| AppSwitcher.ReleaseFocusesSelected | src/AppSwitcher.tsx:36-43 | releasing Meta and focusing the reported window leaves the selected candidate as the only focused window, on top (unique ids) |
| Spotlight.KeyDown | src/SpotlightSearch.tsx:41-54 | Escape closes; ArrowDown sets min(i+1, len-1); ArrowUp sets max(i-1, 0); Enter runs the selected action and closes iff results[i] exists, and otherwise leaves the state unchanged; other keys do nothing |
| Spotlight.ArrowsStayInRange | src/SpotlightSearch.tsx:44-49 | on a non-empty list both arrows keep an in-range selection in range |
| Spotlight.ArrowsClampAndInvert | src/SpotlightSearch.tsx:44-49 | ArrowDown at the end and ArrowUp at 0 are no-ops; elsewhere each arrow undoes the other |
| Spotlight.ArrowDownOnEmptyResults | src/SpotlightSearch.tsx:44-53 | with no results ArrowDown sets the selection to -1 and Enter then does nothing |
| Spotlight.NoResultsAfterQuery | src/SpotlightSearch.tsx:31-39 | an empty query hides the message; a non-empty one shows it iff the search finds nothing (always, without a callback) |
| Spotlight.OpenSearchEnterRunsFirst | src/SpotlightSearch.tsx:22-53 | open, type a query with results, press Enter: the first result's action runs and the overlay closes |
| Spotlight.ClickResult | src/SpotlightSearch.tsx:88 | clicking a result row runs that row's action and closes, keeping query and results |
| Spotlight.ClickSelectedIsEnter | src/SpotlightSearch.tsx:50-52 | clicking the highlighted row does exactly what Enter does |
| Spotlight.ClosingKeysHideAndReopenForgets | src/SpotlightSearch.tsx:22-56 | Escape, and Enter on an existing result, stop the overlay rendering; reopening after a close (also the backdrop's, line 61) resets query, results and selection, so no stale "No results" message shows |
| ZDock.Falloff | src/ZDock.tsx:24-28 | 1.5, 1.25, 1.1 at distance 0, 1, 2 and 1 from 3 on; always within [1, 1.5] and 1.5 only at 0 |
| ZDock.Scale | src/ZDock.tsx:22-29 | scale is 1 without magnification or hover, else the table at the distance from the hovered index |
| ZDock.FalloffNonIncreasing | src/ZDock.tsx:24-28 | the table never grows with distance |
| ZDock.ScaleSymmetric | src/ZDock.tsx:24 | items equally far on either side get the same scale |
| ZDock.ScaleNonIncreasingInDistance | src/ZDock.tsx:24-28 | a farther item is never larger than a nearer one |
| ZDock.OnlyHoveredPeaks | src/ZDock.tsx:23-25 | scale 1.5 holds exactly for the hovered index with magnification on |
| ZDock.LeaveResetsScales | src/ZDock.tsx:40 | after leaving, every scale is 1 |
| DockItem.BadgeLabel | src/DockItem.tsx:59-61 | a badge shows iff defined and positive; it reads "99+" above 99, otherwise the count's canonical decimal text: no leading zero, one digit below 10, parsing back to the count |
| DockItem.View | src/DockItem.tsx:21-61 | the running dot shows iff running; the badge is the badge label; the side is 64 with both props omitted, and lies in [size, 1.5 size] for scales in [1, 1.5] |
| DockItem.ItemInDockIsMagnifiedWithinBounds | src/DockItem.tsx:25-30 | inside a dock each icon's side is between the dock size and 1.5 times it, and reaches 1.5 times only when hovered with magnification on |
| DockItem.DockHoverSides | src/ZDock.tsx:13-47 | in a dock of any size with magnification at its default and item h hovered, each icon's side is the size times the falloff at its distance: 1.5, 1.25, 1.1, then 1 times the size |
| DockItem.DefaultDockHoverSides | src/ZDock.tsx:13-47 | in a default (64 px) dock with item h hovered, each icon's side is 64 times the falloff at its distance: 96, 80, 70.4, then 64 |
| ZMenuBar.DefaultMenusShape | src/ZMenuBar.tsx:10-50 | the default menus are File, Edit, View, Window, Help, with distinct titles |
| ZMenuBar.AtMostOneDropdown | src/ZMenuBar.tsx:72-85 | with distinct titles at most one dropdown is drawn |
| ZMenuBar.ClickTitleTwice | src/ZMenuBar.tsx:80 | two clicks on the same title return to the starting state |
| ZMenuBar.HoverSwitchesOnlyAfterClick | src/ZMenuBar.tsx:76-80 | hovering never opens a menu on a closed bar; after a click opens a menu, hovering another title switches to it |
| ZMenuBar.ChoosingItemClosesDropdowns | src/ZMenuBar.tsx:85-96 | choosing an enabled entry removes every dropdown and the backdrop; a separator or disabled entry changes no dropdown |
| ZMenuBar.BackdropMatchesDropdown | src/ZMenuBar.tsx:85-122 | the backdrop is present iff a dropdown with a non-empty title is drawn, and clicking it removes it |
| ZMenuBar.OpenMenuIsARenderedMenu | src/ZMenuBar.tsx:53-122 | under any events on rendered titles, the open menu is none or one of the rendered menus |
| BootSequence.StepKeepsInvariant | src/BootSequence.tsx:26-40 | a step keeps progress even and in [0,100], never lowers it, and keeps onComplete to at most one call |
| BootSequence.RunKeepsInvariant | src/BootSequence.tsx:26-40 | the invariant and non-decreasing progress hold over any event sequence |
| BootSequence.OnCompleteAtMostOnce | src/BootSequence.tsx:37-46 | in any firing order, onComplete is called at most once per mount |
| BootSequence.TicksFromMount | src/BootSequence.tsx:16-33 | from mount, k <= 50 ticks give progress 2k and change nothing else |
| BootSequence.TickingStopsAfterFull | src/BootSequence.tsx:27-30 | 50 ticks reach 100, the 51st stops the interval, later ticks change nothing |
| BootSequence.PhaseCanGoBack | src/BootSequence.tsx:19-40 | if the completion timer fires before the logo timer, the phase goes from complete back to loading |
| BootSequence.CallbackSurvivesUnmount | src/BootSequence.tsx:37-46 | unmount does not cancel the nested timer, so onComplete can still be called |
| BootSequence.ScreensFollowPhases | src/BootSequence.tsx:19-73 | the progress bar and fade-out never show together; neither at mount, the bar after the logo timer, then the fade-out without the bar after completion |
| SettingsPanel.Emit | src/DesktopSettings.tsx:34-129 | every control emits exactly one field: a theme, a palette colour, a listed wallpaper, the slider's own value (a size in [32,128]), a checkbox state or a dock position |
| SettingsPanel.InitialInDomain | src/ZDesktop.tsx:11-27 | the mounted settings lie in the panel's domains |
| SettingsPanel.EmitKeepsDomain | src/DesktopSettings.tsx:8-129 | merging one control's update keeps the settings in the domains |
| SettingsPanel.ReachableSettingsInDomain | src/DesktopSettings.tsx:8-129 | any sequence of control actions keeps the settings in the domains and leaves the windows alone |
| SettingsPanel.PressedButtonAloneHighlighted | src/DesktopSettings.tsx:34-83 | after pressing a theme, accent or wallpaper button, exactly that button of its row is highlighted |

## Findings

| source | as written | input that shows it | evidently intended | confidence | as-written member | corrected member |
|---|---|---|---|---|---|---|
| demo/main.tsx:139-146 | the demo renders `<LockScreen>` without its required `isLocked` prop (and passes `username` for `userName`), so the component sees `isLocked` undefined and returns null | Meta+L on the desktop: the screen goes blank, and since nothing is rendered there is no way to unlock | pass `isLocked={locked}` so the lock screen shows and its button unlocks | high; not executed | Demo.ViewAsWritten | Demo.CurrentView |

`Demo.LockAsWrittenBlanksScreen` exhibits the as-written behaviour.
`Demo.LockThenUnlockRestoresDesktop` proves the corrected one.

## Left out

- Rendering: JSX, Tailwind classes, CSS animations, icons and images, in every file.
- `src/DesktopContext.tsx` and `src/index.ts`: React context glue and re-exports. `useDesktop` throwing outside a provider is not modelled.
- Real time: timers are events with no durations. The tick period `duration / 50`, the order in which timers fire and the clocks shown by the menu bar, lock screen and demo are not modelled. Locale-dependent date formatting is not modelled either.
- Browser wiring: listener registration and cleanup, `preventDefault`, `stopPropagation`, focusing the input ref.
- External collaborators: the app registry, app components, search callback and result actions come from `@z-os/apps` or the caller. They are parameters or opaque `ActionId` tokens.
- React scheduling: callbacks read the latest state. In the source `openWindow` and `closeWindow` of the library, and the demo's `openApp` (for the cascade position and the z-index), read the render-time `windows` snapshot. The two agree when calls are not batched within one render.
- `BootSequence` re-running its effect when `duration` or `onComplete` changes is not modelled. The model covers one mount with fixed props.
- `Spotlight` re-running the search when only the callback's identity changes is not modelled.
- `ZMenuBar`: `MenuItem.submenu` is carried in the type, but the component never renders submenus, so neither does the model.
- `tests/desktop.spec.ts`: browser tests, used only as evidence. The App Store tests target an external package.
- AppSwitcher.KeyDown: requires at least one running window for Meta+Tab, because the source then computes `% 0` and the selection becomes `NaN`.
- DockItem.BadgeLabel: badge counts are integers; a fractional JavaScript number would print with a decimal point.
- ZDesktop.UpdateSettings: a field given explicitly as `undefined` in the partial update would overwrite the setting with `undefined` in JavaScript. `Option` cannot express that, so the model treats it as absent.
- ZDesktop.OpenWindow: positions are exact reals from the two random draws, so floating-point rounding is not modelled.
