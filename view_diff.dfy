/** The update message a list view sends (`<view>_updated`) and the cut of
 *  the visible window (`updateViewItems`): which matching items are visible,
 *  and for each one whether it goes out with all its properties, with the
 *  properties its update named, or with its id only. */
module ViewDiff {
  import opened Options
  import opened PropertyRegistry

  /** One visible item: the item (sent as its id), its position in the
   *  window, and the properties sent with it (None: id and position only). */
  datatype ItemEntry<T> = ItemEntry(item: T, position: nat, properties: Option<set<PropertyId>>)

  /** The fields of an update message; an absent field is None. */
  datatype Diff<T> = Diff(
    items: Option<seq<ItemEntry<T>>>,
    rangeStart: Option<int>,
    rangeOffset: Option<int>,
    matchingItems: Option<int>,
    totalItems: Option<int>)
  {
    /** A message with no field is not sent. */
    predicate IsEmpty() {
      items.None? && rangeStart.None? && rangeOffset.None? && matchingItems.None? && totalItems.None?
    }
  }

  function Min(a: int, b: int): int {
    if a < b then a else b
  }

  /** The range start actually used: a start at or past the number of ALL
   *  items (not of the matching ones) goes back to 0. */
  function ClampStart(start: int, totalCount: nat): (r: int)
    ensures start >= totalCount ==> r == 0
    ensures start < totalCount ==> r == start
  {
    if start >= totalCount then 0 else start
  }

  /** The number of visible items; negative when nothing is to be listed. */
  function WindowCount(matchingCount: nat, start: int, maxCount: int): (r: int)
    ensures r <= matchingCount - start && r <= maxCount
    ensures r == matchingCount - start || r == maxCount
  {
    Min(matchingCount - start, maxCount)
  }

  /** The visible items for a clamped start: `maxCount` items from `start`,
   *  fewer at the end of the list, none when the count is negative. */
  function Window<T>(matching: seq<T>, start: nat, maxCount: int): (r: seq<T>)
    ensures |r| <= |matching|
    ensures 0 <= maxCount && start <= |matching| ==> r == matching[start..Min(start + maxCount, |matching|)]
    ensures maxCount < 0 || |matching| < start ==> r == []
  {
    var count := WindowCount(|matching|, start, maxCount);
    if count < 0 then [] else matching[start..start + count]
  }

  /** How a visible item is listed: with every property when it was not
   *  visible before, with the properties its update named when it was and
   *  was updated, else with its id and position only. */
  function EntryFor<T(==)>(item: T, position: nat, previous: seq<T>, updated: map<T, set<PropertyId>>, allProperties: set<PropertyId>): ItemEntry<T> {
    if item !in previous then ItemEntry(item, position, Some(allProperties))
    else if item in updated then ItemEntry(item, position, Some(updated[item]))
    else ItemEntry(item, position, None)
  }

  /** updateViewItems: clamp the start, cut the window out of the matching
   *  items and list each visible item at its position. `items` is None when
   *  the count is negative (the message then has no "items" field). */
  method UpdateViewItems<T(==)>(updated: map<T, set<PropertyId>>, matching: seq<T>, totalCount: nat, previous: seq<T>,
                                start: int, maxCount: int, allProperties: set<PropertyId>)
    returns (newStart: int, items: Option<seq<ItemEntry<T>>>, view: seq<T>)
    requires 0 <= start
    ensures newStart == ClampStart(start, totalCount)
    ensures 0 <= newStart && (newStart < totalCount || newStart == 0)
    ensures view == Window(matching, newStart, maxCount)
    ensures items.None? <==> WindowCount(|matching|, newStart, maxCount) < 0
    ensures items.Some? ==> |items.value| == |view|
    ensures items.Some? ==> forall i :: 0 <= i < |view| ==>
              items.value[i] == EntryFor(view[i], i, previous, updated, allProperties)
  {
    newStart := if start >= totalCount then 0 else start;
    var count := Min(|matching| - newStart, maxCount);
    if count < 0 {
      return newStart, None, [];
    }
    view := matching[newStart..newStart + count];
    var entries := [];
    for pos := 0 to |view|
      invariant |entries| == pos
      invariant forall i :: 0 <= i < pos ==> entries[i] == EntryFor(view[i], i, previous, updated, allProperties)
    {
      var item := view[pos];
      var entry;
      if item !in previous {
        entry := ItemEntry(item, pos, Some(allProperties));
      } else if item in updated {
        entry := ItemEntry(item, pos, Some(updated[item]));
      } else {
        entry := ItemEntry(item, pos, None);
      }
      entries := entries + [entry];
    }
    items := Some(entries);
  }

  /** appendItemCounts for one count: sent only when it differs from the
   *  count sent last time. */
  function CountUpdate(previous: int, current: int): (r: Option<int>)
    ensures r.Some? <==> current != previous
    ensures r.Some? ==> r.value == current
  {
    if current != previous then Some(current) else None
  }
}
