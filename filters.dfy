/** The filters of a list view: the list of PropertyFilter objects, the
 *  matchers built from the non-empty ones (`getFilterMatchers`), the lookup
 *  of a filter by its token (`findFilter`), and the recomputation of the
 *  matching items from all items (the loop of `onFilterUpdated`). */
module Filters {

  /** The token a filter is addressed by in requests. */
  type FilterToken = nat

  /** A PropertyFilter: its token and what it was last prepared with (match
   *  method, property id, pattern). A filter whose pattern is empty is inert
   *  and is left out of the matchers. */
  datatype Filter = Filter(id: FilterToken, matchMethod: int, property: int, pattern: string) {
    predicate IsEmpty() {
      pattern == ""
    }
  }

  /** Filter tokens increase along the list, so no two filters share one. */
  ghost predicate TokensIncrease(filters: seq<Filter>) {
    forall i, j :: 0 <= i < j < |filters| ==> filters[i].id < filters[j].id
  }

  /** Every filter token is below `bound`. */
  ghost predicate TokensBelow(filters: seq<Filter>, bound: nat) {
    forall i :: 0 <= i < |filters| ==> filters[i].id < bound
  }

  /** The non-empty filters, in list order. */
  function ActiveFilters(filters: seq<Filter>): (r: seq<Filter>)
    ensures |r| <= |filters|
    ensures forall f :: f in r <==> f in filters && !f.IsEmpty()
    decreases |filters|
  {
    if |filters| == 0 then []
    else
      var last := filters[|filters| - 1];
      ActiveFilters(filters[..|filters| - 1]) + (if last.IsEmpty() then [] else [last])
  }

  /** getFilterMatchers: one matcher per non-empty filter. */
  method GetFilterMatchers(filters: seq<Filter>) returns (ret: seq<Filter>)
    ensures ret == ActiveFilters(filters)
  {
    ret := [];
    for i := 0 to |filters|
      invariant ret == ActiveFilters(filters[..i])
    {
      assert filters[..i + 1][..i] == filters[..i];
      if !filters[i].IsEmpty() {
        ret := ret + [filters[i]];
      }
    }
    assert filters[..|filters|] == filters;
  }

  /** findFilter: the index of the filter with token `token`, or -1. */
  function FindFilter(filters: seq<Filter>, token: FilterToken): (r: int)
    ensures -1 <= r < |filters|
    ensures r == -1 <==> forall i :: 0 <= i < |filters| ==> filters[i].id != token
    ensures 0 <= r ==> filters[r].id == token
    ensures forall i :: 0 <= i < r ==> filters[i].id != token
    decreases |filters|
  {
    if |filters| == 0 then -1
    else if filters[0].id == token then 0
    else
      var r := FindFilter(filters[1..], token);
      if r < 0 then -1 else r + 1
  }

  /** The loop of `onFilterUpdated`: every item of `items` that passes the
   *  matchers, each once. `matches` is PropertyFilter::Matcher::match applied
   *  to an item; the items are visited in an order this model leaves open. */
  method CollectMatching<T(==)>(items: set<T>, matchers: seq<Filter>, matches: (T, seq<Filter>) -> bool) returns (r: seq<T>)
    ensures forall x :: x in r <==> x in items && matches(x, matchers)
    ensures forall i, j :: 0 <= i < j < |r| ==> r[i] != r[j]
  {
    r := [];
    var rest := items;
    while rest != {}
      invariant rest <= items
      invariant forall x :: x in r <==> x in items - rest && matches(x, matchers)
      invariant forall i, j :: 0 <= i < j < |r| ==> r[i] != r[j]
      decreases rest
    {
      var x :| x in rest;
      if matches(x, matchers) {
        r := r + [x];
      }
      rest := rest - {x};
    }
  }
}
