/**
 * The spotlight search overlay (src/SpotlightSearch.tsx). The search
 * callback is an optional function parameter; a result's `action` is an
 * opaque token, and running it is reported as an output. Closing stands
 * for the parent answering `onClose`.
 */
module Spotlight {
  import opened Wrappers
  import opened Types

  datatype Spotlight = Spotlight(isOpen: bool, query: string, results: seq<SpotlightResult>, selected: int)

  const Initial := Spotlight(false, "", [], 0)

  type Search = Option<string -> seq<SpotlightResult>>

  /** The `isOpen` prop turning true: empty query, no results, first entry selected. */
  function Open(s: Spotlight): (r: Spotlight)
    ensures r.isOpen && r.query == "" && r.results == [] && r.selected == 0
  {
    Spotlight(true, "", [], 0)
  }

  /** The parent answering `onClose`; the rest of the state is kept for the next opening to reset. */
  function Close(s: Spotlight): (r: Spotlight)
    ensures !r.isOpen && r.(isOpen := s.isOpen) == s
  {
    s.(isOpen := false)
  }

  /**
   * The query changing: a non-empty query with a search callback replaces
   * the results and selects the first; otherwise the results are emptied
   * and the selection is left where it was.
   */
  function QueryChanged(s: Spotlight, q: string, onSearch: Search): (r: Spotlight)
    ensures r.query == q && r.isOpen == s.isOpen
    ensures Truthy(q) && onSearch.Some? ==> r.results == onSearch.value(q) && r.selected == 0
    ensures !(Truthy(q) && onSearch.Some?) ==> r.results == [] && r.selected == s.selected
  {
    if Truthy(q) && onSearch.Some? then s.(query := q, results := onSearch.value(q), selected := 0)
    else s.(query := q, results := [])
  }

  function Min(a: int, b: int): int {
    if a < b then a else b
  }

  function Max(a: int, b: int): int {
    if a > b then a else b
  }

  datatype KeyResult = KeyResult(state: Spotlight, run: Option<ActionId>)

  /**
   * A key pressed in the search field (which exists only while open).
   * Escape closes; the arrows move the selection, clamped to the results;
   * Enter runs the selected result and closes, if there is one.
   */
  function KeyDown(s: Spotlight, key: string): (r: KeyResult)
    ensures !s.isOpen ==> r == KeyResult(s, None)
    ensures s.isOpen && key == "Escape" ==> r == KeyResult(s.(isOpen := false), None)
    ensures s.isOpen && key == "ArrowDown" ==> r == KeyResult(s.(selected := Min(s.selected + 1, |s.results| - 1)), None)
    ensures s.isOpen && key == "ArrowUp" ==> r == KeyResult(s.(selected := Max(s.selected - 1, 0)), None)
    ensures s.isOpen && key == "Enter" ==> (r.run.Some? <==> 0 <= s.selected < |s.results|)
    ensures s.isOpen && key == "Enter" && !(0 <= s.selected < |s.results|) ==> r == KeyResult(s, None)
    ensures r.run.Some? ==> && key == "Enter" && 0 <= s.selected < |s.results|
                            && r.run.value == s.results[s.selected].action
                            && r.state == s.(isOpen := false)
    ensures r.run.None? && key != "Escape" ==> r.state.isOpen == s.isOpen
    ensures key !in {"Escape", "ArrowDown", "ArrowUp", "Enter"} ==> r == KeyResult(s, None)
  {
    if !s.isOpen then KeyResult(s, None)
    else if key == "Escape" then KeyResult(s.(isOpen := false), None)
    else if key == "ArrowDown" then KeyResult(s.(selected := Min(s.selected + 1, |s.results| - 1)), None)
    else if key == "ArrowUp" then KeyResult(s.(selected := Max(s.selected - 1, 0)), None)
    else if key == "Enter" && 0 <= s.selected < |s.results| then
      KeyResult(s.(isOpen := false), Some(s.results[s.selected].action))
    else KeyResult(s, None)
  }

  /** On a non-empty list, both arrows keep an in-range selection in range. */
  lemma ArrowsStayInRange(s: Spotlight)
    requires s.isOpen && 0 <= s.selected < |s.results|
    ensures 0 <= KeyDown(s, "ArrowDown").state.selected < |s.results|
    ensures 0 <= KeyDown(s, "ArrowUp").state.selected < |s.results|
  {
  }

  /** The arrows stop at the ends, and in between they undo each other. */
  lemma ArrowsClampAndInvert(s: Spotlight)
    requires s.isOpen && 0 <= s.selected < |s.results|
    ensures s.selected == |s.results| - 1 ==> KeyDown(s, "ArrowDown").state == s
    ensures s.selected == 0 ==> KeyDown(s, "ArrowUp").state == s
    ensures s.selected < |s.results| - 1 ==> KeyDown(KeyDown(s, "ArrowDown").state, "ArrowUp").state == s
    ensures s.selected > 0 ==> KeyDown(KeyDown(s, "ArrowUp").state, "ArrowDown").state == s
  {
  }

  /** With no results, ArrowDown drives the selection to -1, and Enter then does nothing. */
  lemma ArrowDownOnEmptyResults(s: Spotlight)
    requires s.isOpen && s.results == [] && s.selected >= 0
    ensures KeyDown(s, "ArrowDown").state.selected == -1
    ensures KeyDown(KeyDown(s, "ArrowDown").state, "Enter") == KeyResult(KeyDown(s, "ArrowDown").state, None)
  {
  }

  /** Whether the overlay renders at all. */
  function Rendered(s: Spotlight): (shown: bool)
    ensures shown <==> s.isOpen
  {
    s.isOpen
  }

  /** Whether the "No results" message shows. */
  function NoResultsShown(s: Spotlight): (shown: bool)
    ensures shown <==> s.isOpen && s.query != "" && |s.results| == 0
  {
    s.isOpen && Truthy(s.query) && |s.results| == 0
  }

  /** Typing a query the search answers with nothing shows the message; clearing the query hides it. */
  lemma NoResultsAfterQuery(s: Spotlight, q: string, onSearch: Search)
    requires s.isOpen
    ensures q == "" ==> !NoResultsShown(QueryChanged(s, q, onSearch))
    ensures q != "" && onSearch.None? ==> NoResultsShown(QueryChanged(s, q, onSearch))
    ensures q != "" && onSearch.Some? ==>
      (NoResultsShown(QueryChanged(s, q, onSearch)) <==> onSearch.value(q) == [])
  {
  }

  /** Opening, typing a query that finds something, and pressing Enter runs the first result. */
  lemma OpenSearchEnterRunsFirst(s: Spotlight, q: string, search: string -> seq<SpotlightResult>)
    requires q != "" && |search(q)| > 0
    ensures var typed := QueryChanged(Open(s), q, Some(search));
      KeyDown(typed, "Enter") == KeyResult(typed.(isOpen := false), Some(search(q)[0].action))
  {
  }

  /** Clicking result row `k` (rows exist only while open) runs its action and closes. */
  function ClickResult(s: Spotlight, k: int): (r: KeyResult)
    requires s.isOpen && 0 <= k < |s.results|
    ensures r.run == Some(s.results[k].action)
    ensures !r.state.isOpen && r.state.results == s.results && r.state.query == s.query
  {
    KeyResult(s.(isOpen := false), Some(s.results[k].action))
  }

  /** Clicking the highlighted row does exactly what Enter does. */
  lemma ClickSelectedIsEnter(s: Spotlight)
    requires s.isOpen && 0 <= s.selected < |s.results|
    ensures ClickResult(s, s.selected) == KeyDown(s, "Enter")
  {
  }

  /**
   * Escape, and Enter on an existing result, take the overlay off the screen;
   * opening it again forgets the previous query, results and selection.
   */
  lemma ClosingKeysHideAndReopenForgets(s: Spotlight)
    requires s.isOpen
    ensures !Rendered(KeyDown(s, "Escape").state)
    ensures KeyDown(s, "Enter").run.Some? ==> !Rendered(KeyDown(s, "Enter").state)
    ensures Rendered(Open(Close(s))) && Open(Close(s)) == Open(Initial)
    ensures !NoResultsShown(Open(Close(s)))
  {
  }
}
