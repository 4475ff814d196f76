/**
 * The Meta+Tab app switcher (src/AppSwitcher.tsx). The `isOpen` prop and
 * the `onClose` callback are folded into the state: opening is the prop
 * turning true, closing is the parent answering `onClose`. Releasing Meta
 * reports the window to focus, which the caller hands to the window manager.
 */
module AppSwitcher {
  import opened Wrappers
  import opened Types
  import Seqs
  import ZDesktop

  datatype Switcher = Switcher(isOpen: bool, selected: int)

  const Initial := Switcher(false, 0)

  predicate NotMinimized(w: WindowState) {
    !w.isMinimized
  }

  /** The switcher's candidates: the non-minimized windows, in list order. */
  function RunningApps(ws: seq<WindowState>): (r: seq<WindowState>)
    ensures forall w :: w in r <==> w in ws && !w.isMinimized
    ensures (forall i :: 0 <= i < |ws| ==> !ws[i].isMinimized) ==> r == ws
  {
    Seqs.Filter(ws, NotMinimized)
  }

  /**
   * The candidates keep the windows' list order: the filter splits over any
   * cut of the list, and a single window is kept exactly when not minimized.
   */
  lemma RunningAppsKeepOrder(x: seq<WindowState>, y: seq<WindowState>, w: WindowState)
    ensures RunningApps(x + y) == RunningApps(x) + RunningApps(y)
    ensures RunningApps([w]) == if w.isMinimized then [] else [w]
  {
    Seqs.FilterAppend(x, y, NotMinimized);
    assert [w][1..] == [];
  }

  /** JavaScript's `%` on integers: the remainder takes the sign of the dividend. */
  function JsRem(a: int, n: int): (r: int)
    requires n > 0
    ensures a >= 0 ==> r == a % n
    ensures -n < r < n
  {
    if a >= 0 then a % n else -((-a) % n)
  }

  /** `(prev + 1) % n`. */
  function Next(i: int, n: int): (r: int)
    requires n > 0
    ensures i >= 0 ==> 0 <= r < n
  {
    JsRem(i + 1, n)
  }

  /** `(prev - 1 + n) % n`. */
  function Prev(i: int, n: int): (r: int)
    requires n > 0
    ensures i >= 0 ==> 0 <= r < n
  {
    JsRem(i - 1 + n, n)
  }

  /** A non-zero multiple of `n` is at least `n` away from zero. */
  lemma MulAwayFromZero(n: int, x: int)
    requires n > 0
    ensures x >= 1 ==> n * x >= n
    ensures x <= -1 ==> n * x <= -n
  {
    if x >= 1 {
      assert n * x == n + n * (x - 1);
    } else if x <= -1 {
      assert n * x == -n - n * (-x - 1);
    }
  }

  /** Euclidean division has one answer: a quotient and an in-range remainder fix `%`. */
  lemma ModUnique(a: int, n: int, q: int, r: int)
    requires n > 0 && a == n * q + r && 0 <= r < n
    ensures a % n == r
  {
    var q', r' := a / n, a % n;
    assert n * (q - q') == r' - r;
    MulAwayFromZero(n, q - q');
  }

  /** On an in-range selection, next is "one on, wrapping to 0" ... */
  lemma NextStep(i: int, n: int)
    requires 0 <= i < n
    ensures Next(i, n) == if i + 1 < n then i + 1 else 0
  {
    if i + 1 < n { ModUnique(i + 1, n, 0, i + 1); } else { ModUnique(i + 1, n, 1, 0); }
  }

  /** ... and previous is "one back, wrapping to n - 1". */
  lemma PrevStep(i: int, n: int)
    requires 0 <= i < n
    ensures Prev(i, n) == if i > 0 then i - 1 else n - 1
  {
    if i > 0 { ModUnique(i - 1 + n, n, 1, i - 1); } else { ModUnique(i - 1 + n, n, 0, n - 1); }
  }

  /** Next and previous undo each other on an in-range selection. */
  lemma NextPrevInverse(i: int, n: int)
    requires 0 <= i < n
    ensures Prev(Next(i, n), n) == i
    ensures Next(Prev(i, n), n) == i
  {
    NextStep(i, n);
    PrevStep(i, n);
    PrevStep(Next(i, n), n);
    NextStep(Prev(i, n), n);
  }

  /** Adding one to a number moves its remainder one on, wrapping at `n`. */
  lemma ModSucc(a: int, n: int)
    requires a >= 0 && n > 0
    ensures (a + 1) % n == if a % n + 1 < n then a % n + 1 else 0
  {
    var q, j := a / n, a % n;
    if j + 1 < n {
      ModUnique(a + 1, n, q, j + 1);
    } else {
      ModUnique(a + 1, n, q + 1, 0);
    }
  }

  /** `k` consecutive Meta+Tab presses. */
  function NextTimes(i: int, n: int, k: nat): int
    requires n > 0
  {
    if k == 0 then i else Next(NextTimes(i, n, k - 1), n)
  }

  lemma {:induction false} NextTimesAdvances(i: int, n: int, k: nat)
    requires 0 <= i < n
    ensures NextTimes(i, n, k) == (i + k) % n
  {
    if k > 0 {
      NextTimesAdvances(i, n, k - 1);
      NextStep((i + k - 1) % n, n);
      ModSucc(i + k - 1, n);
    }
  }

  /** `n` presses go all the way round. */
  lemma FullCycleReturns(i: int, n: int)
    requires 0 <= i < n
    ensures NextTimes(i, n, n) == i
  {
    NextTimesAdvances(i, n, n);
    ModUnique(i + n, n, 1, i);
  }

  /** Three running windows: four presses land where one press does. */
  lemma FourPressesOnThreeWindows()
    ensures NextTimes(0, 3, 4) == NextTimes(0, 3, 1) == 1
  {
    NextTimesAdvances(0, 3, 4);
    NextTimesAdvances(0, 3, 1);
    ModUnique(4, 3, 1, 1);
    ModUnique(1, 3, 0, 1);
  }

  /** The `isOpen` prop turning true resets the selection to the first entry. */
  function Open(s: Switcher): (r: Switcher)
    ensures r.isOpen && r.selected == 0
  {
    Switcher(true, 0)
  }

  predicate IsCycleKey(e: KeyEvent) {
    e.key == "Tab" && e.metaKey
  }

  /**
   * A key press with `n` running windows: Meta+Tab moves forward,
   * Shift+Meta+Tab backward; ignored while closed or for other keys.
   * With no running windows the source computes `% 0`, so `n > 0` is required.
   */
  function KeyDown(s: Switcher, e: KeyEvent, n: int): (r: Switcher)
    requires s.isOpen && IsCycleKey(e) ==> n > 0
    ensures !(s.isOpen && IsCycleKey(e)) ==> r == s
    ensures s.isOpen && IsCycleKey(e) && e.shiftKey ==> r == s.(selected := Prev(s.selected, n))
    ensures s.isOpen && IsCycleKey(e) && !e.shiftKey ==> r == s.(selected := Next(s.selected, n))
    ensures s.selected >= 0 ==> r.selected >= 0
    ensures s.isOpen && IsCycleKey(e) && s.selected >= 0 ==> r.selected < n
  {
    if !s.isOpen then s
    else if IsCycleKey(e) then
      if e.shiftKey then s.(selected := Prev(s.selected, n)) else s.(selected := Next(s.selected, n))
    else s
  }

  /** The new switcher state and the window (if any) to hand to `focusWindow`. */
  datatype Released = Released(state: Switcher, focus: Option<string>)

  /** Releasing Meta while open focuses the selected candidate, if it exists, and always closes. */
  function KeyUp(s: Switcher, e: KeyEvent, running: seq<WindowState>): (r: Released)
    ensures !(e.key == "Meta" && s.isOpen) ==> r == Released(s, None)
    ensures e.key == "Meta" && s.isOpen ==> r.state == s.(isOpen := false)
    ensures e.key == "Meta" && s.isOpen ==> (r.focus.Some? <==> 0 <= s.selected < |running|)
    ensures r.focus.Some? ==> 0 <= s.selected < |running| && r.focus.value == running[s.selected].id
  {
    if e.key == "Meta" && s.isOpen then
      var focus := if 0 <= s.selected < |running| then Some(running[s.selected].id) else None;
      Released(s.(isOpen := false), focus)
    else Released(s, None)
  }

  /** Clicking entry `k` focuses it and closes. */
  function Click(s: Switcher, running: seq<WindowState>, k: int): (r: Released)
    requires 0 <= k < |running|
    ensures !r.state.isOpen && r.state.selected == s.selected
    ensures r.focus == Some(running[k].id)
  {
    Released(s.(isOpen := false), Some(running[k].id))
  }

  /** The overlay is drawn only while open and with at least one candidate. */
  function Shown(s: Switcher, ws: seq<WindowState>): (shown: bool)
    ensures shown ==> s.isOpen && exists w :: w in ws && !w.isMinimized
    ensures s.isOpen && (exists w :: w in ws && !w.isMinimized) ==> shown
  {
    var running := RunningApps(ws);
    assert |running| > 0 ==> running[0] in running;
    s.isOpen && |running| > 0
  }

  /**
   * Releasing Meta on a valid selection, then focusing what it reports,
   * leaves that candidate as the only focused window, on top (given unique ids).
   */
  lemma ReleaseFocusesSelected(d: Desktop, s: Switcher, e: KeyEvent)
    requires ZDesktop.UniqueIds(d.windows)
    requires s.isOpen && e.key == "Meta"
    requires 0 <= s.selected < |RunningApps(d.windows)|
    ensures var running := RunningApps(d.windows);
      var r := KeyUp(s, e, running);
      && r.focus == Some(running[s.selected].id)
      && !r.state.isOpen
      && exists k :: 0 <= k < |d.windows| && d.windows[k] == running[s.selected]
           && ZDesktop.SoleFocusOnTop(ZDesktop.FocusWindow(d, r.focus.value).windows, k)
  {
    var running := RunningApps(d.windows);
    var target := running[s.selected];
    assert target in running;
    assert target in d.windows;
    var k :| 0 <= k < |d.windows| && d.windows[k] == target;
    var r := KeyUp(s, e, running);
    assert r.focus == Some(target.id);
    ZDesktop.FocusGivesUniqueTop(d, k);
    assert ZDesktop.SoleFocusOnTop(ZDesktop.FocusWindow(d, r.focus.value).windows, k);
  }

  /**
   * Opening and releasing Meta straight away focuses the FIRST candidate, the
   * oldest non-minimized window in list order, not the previously used one.
   */
  lemma OpenThenReleaseFocusesFirst(s: Switcher, e: KeyEvent, ws: seq<WindowState>)
    requires e.key == "Meta" && |RunningApps(ws)| > 0
    ensures var r := KeyUp(Open(s), e, RunningApps(ws));
      r.focus == Some(RunningApps(ws)[0].id) && !r.state.isOpen
  {
  }

  /** Clicking entry `k` reports the same window as cycling to `k` and releasing Meta. */
  lemma ClickActsLikeRelease(s: Switcher, running: seq<WindowState>, k: int, e: KeyEvent)
    requires 0 <= k < |running| && e.key == "Meta"
    ensures Click(s, running, k).focus == KeyUp(Switcher(true, k), e, running).focus
    ensures !Click(s, running, k).state.isOpen && !KeyUp(Switcher(true, k), e, running).state.isOpen
  {
  }
}
