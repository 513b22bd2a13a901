/** `SearchDialogFragment`: the route search list. A query keeps the routes whose name holds
    it (ignoring case) or whose id holds it; the kept routes are ordered by numeric id when
    both ids are `Int`s and by name otherwise, and handed to the list adapter. */
module SearchDialog {
  import opened Wrappers
  import opened Ints
  import opened Strings
  import opened Seqs
  import opened Models

  /** The filter of a non-blank query. */
  predicate RouteMatches(route: BusRoute, query: string) {
    ContainsIgnoreCase(route.name, query) || Contains(route.id, query)
  }

  /** The sign of `a.name.compareTo(b.name)`: negative, zero or positive. */
  function CompareNames(a: string, b: string): (c: int)
    ensures c < 0 <==> LexLess(a, b)
    ensures c == 0 <==> a == b
  {
    LexLessIrreflexive(a);
    if LexLess(a, b) then -1 else if a == b then 0 else 1
  }

  /** The comparator of `filterRoutes`: `idA - idB` in `Int` arithmetic when both ids are
      `Int`s, otherwise the name comparison. */
  function CompareRoutes(a: BusRoute, b: BusRoute): int {
    match (ParseInt(a.id), ParseInt(b.id))
    case (Some(x), Some(y)) => WrapInt32(x - y)
    case _ => CompareNames(a.name, b.name)
  }

  /** `a` is placed before `b` when the comparator says it is smaller. */
  predicate RouteLess(a: BusRoute, b: BusRoute) {
    CompareRoutes(a, b) < 0
  }

  /** The routes a query keeps, in their given order: all of them for no query or a blank one. */
  function SelectedRoutes(allRoutes: seq<BusRoute>, query: Option<string>): (r: seq<BusRoute>)
    ensures IsSubsequence(r, allRoutes)
    ensures forall route | route in r :: route in allRoutes
    ensures query.None? || IsBlank(query.value) ==> r == allRoutes
    ensures query.Some? && !IsBlank(query.value) ==>
      (forall route :: route in r <==> route in allRoutes && RouteMatches(route, query.value))
  {
    if query.None? || IsBlank(query.value) then
      FilterAll(allRoutes, (route: BusRoute) => true);
      FilterIsSubsequence(allRoutes, (route: BusRoute) => true);
      allRoutes
    else
      FilterIsSubsequence(allRoutes, (route: BusRoute) => RouteMatches(route, query.value));
      Filter(allRoutes, (route: BusRoute) => RouteMatches(route, query.value))
  }

  /** The list `filterRoutes` submits: the selected routes, stably sorted with the comparator. */
  function FilteredRoutes(allRoutes: seq<BusRoute>, query: Option<string>): (r: seq<BusRoute>)
    ensures multiset(r) == multiset(SelectedRoutes(allRoutes, query))
    ensures |r| == |SelectedRoutes(allRoutes, query)|
  {
    var selected := SelectedRoutes(allRoutes, query);
    var r := SortWith(selected, RouteLess);
    assert |r| == |multiset(r)| == |multiset(selected)| == |selected|;
    r
  }

  /** A route is listed exactly when it is one of the routes and the query is absent, blank
      or matched by it; no route is listed twice unless it is given twice. */
  lemma {:induction false} FilteredRoutesMembers(allRoutes: seq<BusRoute>, query: Option<string>, route: BusRoute)
    ensures route in FilteredRoutes(allRoutes, query) <==>
      route in allRoutes && (query.None? || IsBlank(query.value) || RouteMatches(route, query.value))
    ensures query.None? || IsBlank(query.value) ==>
      multiset(FilteredRoutes(allRoutes, query)) == multiset(allRoutes)
  {
    var selected := SelectedRoutes(allRoutes, query);
    assert route in FilteredRoutes(allRoutes, query) <==> route in multiset(selected);
  }

  /** The `Int` value of a route's id (0 when it has none). */
  function IdValue(route: BusRoute): int {
    ParseInt(route.id).GetOr(0)
  }

  /** Ids that are non-negative `Int`s. */
  predicate NumericId(route: BusRoute) {
    ParseInt(route.id).Some? && IdValue(route) >= 0
  }

  /** Between non-negative `Int` ids the subtraction cannot wrap: the comparator is the
      numeric order of the ids. */
  lemma {:induction false} NumericIdsCompare(a: BusRoute, b: BusRoute)
    requires NumericId(a) && NumericId(b)
    ensures RouteLess(a, b) <==> IdValue(a) < IdValue(b)
  {
  }

  /** On routes with non-negative `Int` ids the comparator is a strict order. */
  lemma {:induction false} NumericIdsStrictOrder(routes: seq<BusRoute>)
    requires forall route | route in routes :: NumericId(route)
    ensures StrictOrderOn(RouteLess, routes)
  {
    forall a, b | a in routes && b in routes ensures RouteLess(a, b) <==> IdValue(a) < IdValue(b) {
      NumericIdsCompare(a, b);
    }
  }

  /** When every id is a non-negative `Int` the list comes out in increasing id order, and
      routes with the same id value keep their given order. */
  lemma {:induction false} SortedByNumericId(allRoutes: seq<BusRoute>, query: Option<string>, v: int)
    requires forall route | route in allRoutes :: NumericId(route)
    ensures var r := FilteredRoutes(allRoutes, query);
      forall i, j | 0 <= i < j < |r| :: IdValue(r[i]) <= IdValue(r[j])
    ensures Filter(FilteredRoutes(allRoutes, query), (route: BusRoute) => IdValue(route) == v)
         == Filter(SelectedRoutes(allRoutes, query), (route: BusRoute) => IdValue(route) == v)
  {
    var selected := SelectedRoutes(allRoutes, query);
    var r := FilteredRoutes(allRoutes, query);
    NumericIdsStrictOrder(selected);
    SortWithSorted(selected, RouteLess);
    forall i, j | 0 <= i < j < |r| ensures IdValue(r[i]) <= IdValue(r[j]) {
      assert r[i] in multiset(selected) && r[j] in multiset(selected);
      NumericIdsCompare(r[j], r[i]);
    }
    assert UniformClass(RouteLess, (route: BusRoute) => IdValue(route) == v, selected) by {
      forall a, b | a in selected && b in selected ensures RouteLess(a, b) <==> IdValue(a) < IdValue(b) {
        NumericIdsCompare(a, b);
      }
    }
    SortWithStable(selected, RouteLess, (route: BusRoute) => IdValue(route) == v);
  }

  /** When no id is an `Int` the list comes out in name order, and routes with the same name
      keep their given order. */
  lemma {:induction false} SortedByName(allRoutes: seq<BusRoute>, query: Option<string>, name: string)
    requires forall route | route in allRoutes :: ParseInt(route.id).None?
    ensures var r := FilteredRoutes(allRoutes, query);
      forall i, j | 0 <= i < j < |r| :: !LexLess(r[j].name, r[i].name)
    ensures Filter(FilteredRoutes(allRoutes, query), (route: BusRoute) => route.name == name)
         == Filter(SelectedRoutes(allRoutes, query), (route: BusRoute) => route.name == name)
  {
    var selected := SelectedRoutes(allRoutes, query);
    assert StrictOrderOn(RouteLess, selected) by {
      forall a | a in selected ensures !RouteLess(a, a) {
        LexLessIrreflexive(a.name);
      }
      forall a, b, c | a in selected && b in selected && c in selected && RouteLess(a, b) && RouteLess(b, c)
        ensures RouteLess(a, c) {
        LexLessTransitive(a.name, b.name, c.name);
      }
    }
    SortWithSorted(selected, RouteLess);
    var r := FilteredRoutes(allRoutes, query);
    forall i, j | 0 <= i < j < |r| ensures !LexLess(r[j].name, r[i].name) {
      assert r[j] in multiset(selected);
    }
    assert UniformClass(RouteLess, (route: BusRoute) => route.name == name, selected) by {
      LexLessIrreflexive(name);
    }
    SortWithStable(selected, RouteLess, (route: BusRoute) => route.name == name);
  }

  /** With numeric and non-numeric ids mixed the comparator is not an order: route "2" named "z"
      precedes route "10" named "a", which precedes route "x" named "m", which precedes the first. */
  lemma {:induction false} MixedIdsCycle(a: BusRoute, b: BusRoute, c: BusRoute)
    requires ParseInt(a.id) == Some(2) && a.name == "z"
    requires ParseInt(b.id) == Some(10) && b.name == "a"
    requires ParseInt(c.id).None? && c.name == "m"
    ensures RouteLess(a, b) && RouteLess(b, c) && RouteLess(c, a)
  {
    assert LexLess("a", "m") && LexLess("m", "z");
  }

  /** `idA - idB` wraps: an id of `Int.MAX_VALUE` is placed before an id of -1. */
  lemma {:induction false} SubtractionWraps(a: BusRoute, b: BusRoute)
    requires ParseInt(a.id) == Some(IntMax) && ParseInt(b.id) == Some(-1)
    ensures RouteLess(a, b)
  {
    assert WrapInt32(IntMax + 1) == IntMin;
  }

  // ---------------------------------------------------------------- the adapter and the dialog

  class SearchAdapter {
    var items: seq<BusRoute>

    constructor ()
      ensures items == []
    {
      items := [];
    }

    /** `submitList`: the new list replaces the old one. */
    method SubmitList(newItems: seq<BusRoute>)
      modifies this`items
      ensures items == newItems
    {
      items := newItems;
    }

    /** `getItemCount`: one row per item. */
    function GetItemCount(): (n: nat)
      reads this`items
      ensures n == |items|
    {
      |items|
    }
  }

  class SearchDialogFragment {
    const allRoutes: seq<BusRoute>
    const searchAdapter: SearchAdapter

    /** The dialog once its view is created: the list shows every route, sorted. */
    constructor (allRoutes: seq<BusRoute>)
      ensures this.allRoutes == allRoutes && fresh(searchAdapter)
      ensures searchAdapter.items == FilteredRoutes(allRoutes, Some(""))
    {
      this.allRoutes := allRoutes;
      searchAdapter := new SearchAdapter();
      new;
      FilterRoutes(Some(""));
    }

    /** `filterRoutes`: the adapter shows the sorted selection, one row per selected route. */
    method FilterRoutes(query: Option<string>)
      modifies searchAdapter`items
      ensures searchAdapter.items == FilteredRoutes(allRoutes, query)
      ensures searchAdapter.GetItemCount() == |SelectedRoutes(allRoutes, query)|
    {
      searchAdapter.SubmitList(FilteredRoutes(allRoutes, query));
    }

    /** `onQueryTextChange`: every edit of the query refilters the list. */
    method OnQueryTextChange(newText: Option<string>) returns (handled: bool)
      modifies searchAdapter`items
      ensures handled
      ensures searchAdapter.items == FilteredRoutes(allRoutes, newText)
    {
      FilterRoutes(newText);
      handled := true;
    }
  }
}
