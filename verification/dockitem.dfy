/** One dock icon (src/DockItem.tsx): its rendered size, running dot and badge. */
module DockItem {
  import opened Wrappers
  import opened Types
  import Decimal
  import ZDock

  const DefaultSize := 64.0
  const DefaultScale := 1.0

  /** The badge text: "99+" above 99, the number itself otherwise; absent unless positive. */
  function BadgeLabel(badge: Option<int>): (r: Option<string>)
    ensures r.Some? <==> badge.Some? && badge.value > 0
    ensures r.Some? && badge.value > 99 ==> r.value == "99+"
    ensures r.Some? && badge.value <= 99 ==>
      && r.value == Decimal.NatToString(badge.value)
      && Decimal.AllDigits(r.value) && Decimal.ParseNat(r.value) == badge.value
      && r.value[0] != '0'
      && (|r.value| == 1 <==> badge.value < 10) && |r.value| <= 2
  {
    if badge.None? || badge.value <= 0 then None
    else if badge.value > 99 then Some("99+")
    else
      Decimal.ParseNatToString(badge.value);
      Some(Decimal.NatToString(badge.value))
  }

  /** What one dock icon draws. */
  datatype ItemView = ItemView(side: real, runningDot: bool, badge: Option<string>)

  /** The icon is a square of side `size * scale`, with the dot iff running and the badge label. */
  function View(entry: DockEntry, size: Option<real>, scale: Option<real>): (v: ItemView)
    ensures v.runningDot <==> entry.isRunning
    ensures v.badge == BadgeLabel(entry.badge)
    ensures size.None? && scale.None? ==> v.side == 64.0
    ensures var s := size.GetOr(DefaultSize);
      s >= 0.0 && 1.0 <= scale.GetOr(DefaultScale) <= 1.5 ==> s <= v.side <= 1.5 * s
  {
    ItemView(size.GetOr(DefaultSize) * scale.GetOr(DefaultScale), entry.isRunning, BadgeLabel(entry.badge))
  }

  /** Inside a dock, every icon's side lies between the dock size and one and a half times it. */
  lemma ItemInDockIsMagnifiedWithinBounds(p: ZDock.DockProps, d: ZDock.Dock, index: int)
    requires p.size >= 0.0 && 0 <= index < |p.items|
    ensures var v := View(p.items[index], Some(p.size), Some(ZDock.Scale(p.magnification, d, index)));
      && p.size <= v.side <= 1.5 * p.size
      && (v.side == 1.5 * p.size && p.size > 0.0 <==> p.magnification && d.hoveredIndex == Some(index) && p.size > 0.0)
  {
    ZDock.OnlyHoveredPeaks(p.magnification, d, index);
  }

  /**
   * In a dock of any size whose magnification is left at its default,
   * hovering item `h` sizes every icon at the dock size times the falloff at
   * its distance from `h`: one and a half times the size for the hovered
   * icon, 1.25 times next to it, 1.1 times two away and the size beyond.
   */
  lemma DockHoverSides(items: seq<DockEntry>, size: real, h: int, i: int)
    requires 0 <= i < |items|
    ensures var p := ZDock.MakeProps(Some(items), None, Some(size), None);
      var d := ZDock.Hover(ZDock.Initial, h);
      var v := View(p.items[i], Some(p.size), Some(ZDock.Scale(p.magnification, d, i)));
      && v.side == size * ZDock.Falloff(ZDock.Distance(i, h))
      && (i == h ==> v.side == 1.5 * size)
      && (ZDock.Distance(i, h) == 1 ==> v.side == 1.25 * size)
      && (ZDock.Distance(i, h) == 2 ==> v.side == 1.1 * size)
      && (ZDock.Distance(i, h) >= 3 ==> v.side == size)
  {
  }

  /**
   * With the default props the dock size is 64 px: the hovered icon is
   * 96 px, its neighbours 80 px, the icons two away 70.4 px and the rest 64 px.
   */
  lemma DefaultDockHoverSides(items: seq<DockEntry>, h: int, i: int)
    requires 0 <= i < |items|
    ensures var p := ZDock.MakeProps(Some(items), None, None, None);
      var d := ZDock.Hover(ZDock.Initial, h);
      var v := View(p.items[i], Some(p.size), Some(ZDock.Scale(p.magnification, d, i)));
      && v.side == 64.0 * ZDock.Falloff(ZDock.Distance(i, h))
      && (i == h ==> v.side == 96.0)
      && (ZDock.Distance(i, h) == 1 ==> v.side == 80.0)
      && (ZDock.Distance(i, h) == 2 ==> v.side == 70.4)
      && (ZDock.Distance(i, h) >= 3 ==> v.side == 64.0)
  {
    DockHoverSides(items, 64.0, h, i);
  }
}
