/**
 * The dock container (src/ZDock.tsx): its props' defaults, the hovered-index
 * state, and the magnification table. Scales are exact reals.
 */
module ZDock {
  import opened Wrappers
  import opened Types

  datatype DockProps = DockProps(items: seq<DockEntry>, position: DockPosition, size: real, magnification: bool)

  /** Fills in the defaults: no items, bottom edge, 64 px, magnification on. */
  function MakeProps(items: Option<seq<DockEntry>>, position: Option<DockPosition>,
                     size: Option<real>, magnification: Option<bool>): (p: DockProps)
    ensures items.None? ==> p.items == []
    ensures position.None? ==> p.position == Bottom
    ensures size.None? ==> p.size == 64.0
    ensures magnification.None? ==> p.magnification
    ensures items.Some? ==> p.items == items.value
    ensures position.Some? ==> p.position == position.value
    ensures size.Some? ==> p.size == size.value
    ensures magnification.Some? ==> p.magnification == magnification.value
  {
    DockProps(items.GetOr([]), position.GetOr(Bottom), size.GetOr(64.0), magnification.GetOr(true))
  }

  /** Which item the mouse is over, if any. */
  datatype Dock = Dock(hoveredIndex: Option<int>)

  const Initial := Dock(None)

  /** The mouse entering item `i`. */
  function Hover(d: Dock, i: int): (r: Dock)
    ensures r.hoveredIndex == Some(i)
  {
    Dock(Some(i))
  }

  /** The mouse leaving the dock. */
  function Leave(d: Dock): (r: Dock)
    ensures r.hoveredIndex.None?
  {
    Dock(None)
  }

  function Distance(a: int, b: int): nat {
    if a >= b then a - b else b - a
  }

  /** The magnification falloff table, by distance from the hovered item. */
  function Falloff(distance: nat): (r: real)
    ensures 1.0 <= r <= 1.5
    ensures r == 1.5 <==> distance == 0
    ensures distance == 1 ==> r == 1.25
    ensures distance == 2 ==> r == 1.1
    ensures distance >= 3 ==> r == 1.0
  {
    if distance == 0 then 1.5
    else if distance == 1 then 1.25
    else if distance == 2 then 1.1
    else 1.0
  }

  /** The scale of item `index`: 1 without magnification or hover, else the table at its distance. */
  function Scale(magnification: bool, d: Dock, index: int): (r: real)
    ensures !magnification || d.hoveredIndex.None? ==> r == 1.0
    ensures magnification && d.hoveredIndex.Some? ==> r == Falloff(Distance(index, d.hoveredIndex.value))
    ensures 1.0 <= r <= 1.5
  {
    if !magnification || d.hoveredIndex.None? then 1.0
    else Falloff(Distance(index, d.hoveredIndex.value))
  }

  /** Farther items are never larger. */
  lemma FalloffNonIncreasing(d1: nat, d2: nat)
    requires d1 <= d2
    ensures Falloff(d1) >= Falloff(d2)
  {
  }

  /** Items at the same distance on either side of the hovered one get the same scale. */
  lemma ScaleSymmetric(magnification: bool, h: int, k: int)
    ensures Scale(magnification, Dock(Some(h)), h + k) == Scale(magnification, Dock(Some(h)), h - k)
  {
  }

  /** Scale decreases with distance from the hovered item. */
  lemma ScaleNonIncreasingInDistance(magnification: bool, h: int, i: int, j: int)
    requires Distance(i, h) <= Distance(j, h)
    ensures Scale(magnification, Dock(Some(h)), i) >= Scale(magnification, Dock(Some(h)), j)
  {
    FalloffNonIncreasing(Distance(i, h), Distance(j, h));
  }

  /** Exactly the hovered item, and only with magnification on, reaches the peak 1.5. */
  lemma OnlyHoveredPeaks(magnification: bool, d: Dock, i: int)
    ensures Scale(magnification, d, i) == 1.5 <==> magnification && d.hoveredIndex == Some(i)
  {
  }

  /** After the mouse leaves the dock, every item is back to scale 1. */
  lemma LeaveResetsScales(magnification: bool, d: Dock, i: int)
    ensures Scale(magnification, Leave(d), i) == 1.0
  {
  }
}
