/**
 * The navigation bar (`src/components/navigation/navbar.tsx`): which route
 * is active, which icon each route gets, and which parts of the bar are
 * shown while the routes load or after loading failed. Widths and offsets
 * are percentages in the source; the model keeps the underline's slot.
 */
module Navbar {
  import opened Wrappers

  datatype Route = Route(href: string, caption: string, icon: string)

  datatype Icon = BananaIcon | CalculatorIcon | DashboardIcon

  /** `routes.findIndex((route) => route.href === pathname)`: the first match, or -1. */
  function FindIndex(routes: seq<Route>, pathname: string): (r: int)
    ensures -1 <= r < |routes|
    ensures r == -1 <==> forall i :: 0 <= i < |routes| ==> routes[i].href != pathname
    ensures r >= 0 ==> routes[r].href == pathname && forall j :: 0 <= j < r ==> routes[j].href != pathname
  {
    if |routes| == 0 then -1
    else if routes[0].href == pathname then 0
    else
      var r := FindIndex(routes[1..], pathname);
      if r == -1 then -1 else r + 1
  }

  /** `finalIndex`: `currentIndex >= 0 ? currentIndex : -1`. */
  function FinalIndex(routes: seq<Route>, pathname: string): (r: int)
    ensures -1 <= r < |routes|
  {
    var current := FindIndex(routes, pathname);
    if current >= 0 then current else -1
  }

  /** The guard in `finalIndex` changes nothing: it is `findIndex`'s result. */
  lemma FinalIndexIsFindIndex(routes: seq<Route>, pathname: string)
    ensures FinalIndex(routes, pathname) == FindIndex(routes, pathname)
  {
  }

  /** The icon named by a route: banana, calculator, or the dashboard icon for anything else. */
  function IconFor(name: string): (r: Icon)
    ensures r == BananaIcon <==> name == "banana"
    ensures r == CalculatorIcon <==> name == "calculator"
    ensures r == DashboardIcon <==> name != "banana" && name != "calculator"
  {
    if name == "banana" then BananaIcon
    else if name == "calculator" then CalculatorIcon
    else DashboardIcon
  }

  /** A rendered route link: where it leads, its caption (`label`) and icon, and `data-active`. */
  datatype Link = Link(href: string, caption: string, icon: Icon, active: bool)

  /** What the bar shows. `underline` is the slot the underline is translated to. */
  datatype NavView = NavView(loading: bool, error: bool, links: seq<Link>, underline: Option<int>)

  function RouteLink(route: Route, pathname: string): Link
  {
    Link(route.href, route.caption, IconFor(route.icon), pathname == route.href)
  }

  /**
   * The bar: the loading placeholder while pending, the error notice after a
   * loading error (both can show at once), and the route links with their
   * underline only when neither applies.
   */
  function View(routes: seq<Route>, pathname: string, isPending: bool, isLoadingError: bool): (v: NavView)
    ensures v.loading == isPending && v.error == isLoadingError
    ensures v.underline.Some? <==> !isPending && !isLoadingError
    ensures |v.links| > 0 ==> !isPending && !isLoadingError
    ensures !isPending && !isLoadingError ==>
              && |v.links| == |routes|
              && v.underline == Some(FinalIndex(routes, pathname))
              && forall i :: 0 <= i < |routes| ==>
                   && v.links[i].href == routes[i].href && v.links[i].caption == routes[i].caption
                   && v.links[i].icon == IconFor(routes[i].icon)
                   && (v.links[i].active <==> routes[i].href == pathname)
  {
    if isPending || isLoadingError then NavView(isPending, isLoadingError, [], None)
    else
      NavView(false, false,
              seq(|routes|, (i: int) requires 0 <= i < |routes| => RouteLink(routes[i], pathname)),
              Some(FinalIndex(routes, pathname)))
  }

  /**
   * The underline sits under the first active link, and under no link
   * (slot -1) exactly when no link is active.
   */
  lemma UnderlineMarksActiveLink(routes: seq<Route>, pathname: string)
    ensures var v := View(routes, pathname, false, false);
            var slot := v.underline.value;
            && (slot == -1 <==> forall i :: 0 <= i < |v.links| ==> !v.links[i].active)
            && (slot >= 0 ==> v.links[slot].active && forall j :: 0 <= j < slot ==> !v.links[j].active)
  {
  }

  predicate DistinctHrefs(routes: seq<Route>) {
    forall i, j :: 0 <= i < j < |routes| ==> routes[i].href != routes[j].href
  }

  /** With distinct hrefs, at most one link is active, and it is the underlined one. */
  lemma OneActiveLink(routes: seq<Route>, pathname: string, i: int)
    requires DistinctHrefs(routes)
    requires 0 <= i < |routes|
    ensures View(routes, pathname, false, false).links[i].active <==> View(routes, pathname, false, false).underline == Some(i)
  {
  }
}
