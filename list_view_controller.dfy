/** A list view of a set of items (ListViewController): the items of the
 *  source, the ones passing the view's filters kept in sort order, the
 *  visible window of those, and the queue of item changes that a periodic
 *  flush (`runTasks`) applies before it sends one update message.
 *
 *  The values of the items' properties and the result of matching an item
 *  against the filters are read through an `ItemState` passed to every
 *  operation that looks at items: the items are live objects, so their
 *  values are an input at the time of the call. */
module ListView {
  import opened Options
  import opened PropertyRegistry
  import opened ItemOrder
  import opened Filters
  import opened ViewSettings
  import opened ViewTasks
  import opened ViewDiff
  import opened ItemLists

  /** The fields of a filter request: match method, property name, pattern. */
  datatype FilterRequest = FilterRequest(matchMethod: int, property: string, pattern: string)

  /** Erasing the filter found for a token, when tokens increase along the
   *  list, keeps every other filter and leaves none with that token. */
  lemma RemoveFilterByToken(filters: seq<Filter>, index: nat, token: FilterToken)
    requires index < |filters| && filters[index].id == token
    requires TokensIncrease(filters)
    ensures forall f :: f in RemoveAt(filters, index) <==> f in filters && f.id != token
  {
    var r := RemoveAt(filters, index);
    forall f | f in filters && f.id != token
      ensures f in r
    {
      var k :| 0 <= k < |filters| && filters[k] == f;
      if k < index {
        assert r[k] == f;
      } else {
        assert r[k - 1] == f;
      }
    }
    forall f | f in r
      ensures f in filters && f.id != token
    {
      var k :| 0 <= k < |r| && r[k] == f;
      if k >= index {
        assert filters[k + 1] == f;
      } else {
        assert filters[k] == f;
      }
    }
  }

  /** Erasing a filter keeps the tokens increasing and below a bound. */
  lemma RemoveFilterKeepsTokens(filters: seq<Filter>, index: nat, bound: nat)
    requires index < |filters| && TokensIncrease(filters) && TokensBelow(filters, bound)
    ensures TokensIncrease(RemoveAt(filters, index)) && TokensBelow(RemoveAt(filters, index), bound)
  {
    var r := RemoveAt(filters, index);
    forall i, j | 0 <= i < j < |r|
      ensures r[i].id < r[j].id
    {
      var i' := if i < index then i else i + 1;
      var j' := if j < index then j else j + 1;
      assert r[i] == filters[i'] && r[j] == filters[j'];
    }
    forall i | 0 <= i < |r|
      ensures r[i].id < bound
    {
      assert r[i] == filters[if i < index then i else i + 1];
    }
  }
  /** maybeSort: the matching list is sorted again when the sort property is
   *  among the updated properties, when the sort property or direction
   *  differs from the last flush, or when the list itself changed. */
  function NeedSort(updatedProperties: set<PropertyId>, sortProperty: int, sortAscending: int,
                    prevValues: ValueMap, itemListChanged: bool): (r: bool)
    ensures itemListChanged || sortProperty in updatedProperties ==> r
    ensures !r ==> Get(prevValues, SortProperty) == sortProperty && Get(prevValues, SortAscending) == sortAscending
  {
    sortProperty in updatedProperties
    || Get(prevValues, SortAscending) != sortAscending
    || Get(prevValues, SortProperty) != sortProperty
    || itemListChanged
  }

  class ListViewController<T(==,!new)> {
    /** The properties of the items (PropertyItemHandler::properties). */
    const properties: seq<Property>
    /** The settings requested by the client. */
    const currentValues: IntCollector

    var filters: seq<Filter>
    /** The token the next new filter gets. */
    var nextFilterToken: nat
    /** The items sent as visible by the last flush. */
    var currentViewItems: seq<T>
    /** The items that passed the filters, in sort order. */
    var matchingItems: seq<T>
    var allItems: set<T>
    var active: bool
    var tasks: ItemTasks<T>
    /** Whether the periodic flush is running. */
    var timerRunning: bool
    var itemListChanged: bool
    var prevMatchingItemCount: int
    var prevTotalItemCount: int
    /** The settings used by the last flush. */
    var prevValues: ValueMap

    /** Every setting has a value, the sort property is unset (-1) or one of
     *  the properties, and filter tokens are unique, increasing in list order
     *  and below the next token. */
    ghost predicate Valid()
      reads this, currentValues
    {
      && currentValues.Valid()
      && -1 <= Get(currentValues.values, SortProperty) < |properties|
      && TokensBelow(filters, nextFilterToken)
      && TokensIncrease(filters)
    }

    /** The sort key of the items under a sort property and direction. */
    function Key(state: ItemState<T>, sortProperty: int, sortAscending: int): T -> int {
      KeyOf(properties, state.value, sortProperty, sortAscending)
    }

    /** matchesFilter with the current matchers. */
    predicate Matches(state: ItemState<T>, x: T)
      reads this
    {
      state.matches(x, ActiveFilters(filters))
    }

    /** The matching items are exactly the items passing the filters, each
     *  once. */
    ghost predicate MatchingIsFiltered(state: ItemState<T>)
      reads this
    {
      Filtered(matchingItems, allItems, state, ActiveFilters(filters))
    }

    /** What `clear` leaves: no tasks, items or filters, and no counts sent. */
    ghost predicate Cleared()
      reads this
    {
      && tasks == NoTasks()
      && currentViewItems == [] && matchingItems == [] && allItems == {}
      && prevTotalItemCount == -1 && prevMatchingItemCount == -1
      && filters == []
    }

    constructor (properties: seq<Property>)
      ensures Valid() && Cleared()
      ensures this.properties == properties
      ensures !active && !timerRunning && !itemListChanged && prevValues == map[]
      ensures currentValues.values == Unset && currentValues.changed
    {
      this.properties := properties;
      currentValues := new IntCollector();
      filters := [];
      nextFilterToken := 0;
      currentViewItems := [];
      matchingItems := [];
      allItems := {};
      active := false;
      tasks := NoTasks();
      timerRunning := false;
      itemListChanged := false;
      prevMatchingItemCount := -1;
      prevTotalItemCount := -1;
      prevValues := map[];
    }

    // ---------------------------------------------------------------------
    // Lifecycle

    /** clear: drop the tasks, the items and the filters, and forget the
     *  counts sent. */
    method Clear()
      requires Valid()
      modifies this`tasks, this`currentViewItems, this`matchingItems, this`allItems,
               this`prevTotalItemCount, this`prevMatchingItemCount, this`filters
      ensures Valid() && Cleared()
    {
      tasks := NoTasks();
      currentViewItems := [];
      matchingItems := [];
      allItems := {};
      prevTotalItemCount := -1;
      prevMatchingItemCount := -1;
      filters := [];
    }

    /** stop: inactive, flush stopped, everything cleared and every setting
     *  unset. */
    method Stop()
      requires Valid()
      modifies this`active, this`timerRunning, this`tasks, this`currentViewItems, this`matchingItems,
               this`allItems, this`prevTotalItemCount, this`prevMatchingItemCount, this`filters,
               currentValues`values
      ensures Valid() && Cleared()
      ensures !active && !timerRunning
      ensures currentValues.values == Unset
    {
      active := false;
      timerRunning := false;
      Clear();
      currentValues.Reset();
    }

    /** updateList: the matching list becomes the source's list, unfiltered
     *  and unsorted, its items join all items, and the list is marked
     *  changed. Returns the number of items. */
    method UpdateList(source: seq<T>) returns (count: int)
      modifies this`matchingItems, this`allItems, this`itemListChanged
      ensures matchingItems == source
      ensures allItems == old(allItems) + set x | x in source
      ensures itemListChanged && count == |source|
    {
      matchingItems := source;
      allItems := allItems + set x | x in source;
      itemListChanged := true;
      count := |matchingItems|;
    }

    /** resetItems: clear, ask for the window from the first item, and load
     *  the source's list again. */
    method ResetItems(source: seq<T>)
      requires Valid()
      modifies this`tasks, this`currentViewItems, this`matchingItems, this`allItems,
               this`prevTotalItemCount, this`prevMatchingItemCount, this`filters,
               this`itemListChanged, currentValues
      ensures Valid()
      ensures tasks == NoTasks() && currentViewItems == [] && filters == []
      ensures prevTotalItemCount == -1 && prevMatchingItemCount == -1
      ensures matchingItems == source && allItems == set x | x in source && itemListChanged
      ensures currentValues.values == old(currentValues.values)[RangeStart := 0] && currentValues.changed
    {
      Clear();
      currentValues.Set(RangeStart, 0);
      var _ := UpdateList(source);
    }

    // ---------------------------------------------------------------------
    // Item notifications: queued while the view is active, ignored otherwise.

    method OnItemAdded(item: T)
      modifies this`tasks
      ensures tasks == if active then Queue(old(tasks), item, Task(AddItem, {})) else old(tasks)
    {
      if !active {
        return;
      }
      tasks := Queue(tasks, item, Task(AddItem, {}));
    }

    method OnItemRemoved(item: T)
      modifies this`tasks
      ensures tasks == if active then Queue(old(tasks), item, Task(RemoveItem, {})) else old(tasks)
    {
      if !active {
        return;
      }
      tasks := Queue(tasks, item, Task(RemoveItem, {}));
    }

    method OnItemUpdated(item: T, updatedProperties: set<PropertyId>)
      modifies this`tasks
      ensures tasks == if active then Queue(old(tasks), item, Task(UpdateItem, updatedProperties)) else old(tasks)
    {
      if !active {
        return;
      }
      tasks := Queue(tasks, item, Task(UpdateItem, updatedProperties));
    }

    method OnItemsUpdated(items: seq<T>, updatedProperties: set<PropertyId>)
      modifies this`tasks
      ensures tasks == if active then QueueUpdates(old(tasks), items, updatedProperties) else old(tasks)
    {
      if !active {
        return;
      }
      for i := 0 to |items|
        invariant tasks == QueueUpdates(old(tasks), items[..i], updatedProperties)
      {
        assert items[..i + 1][..i] == items[..i];
        tasks := Queue(tasks, items[i], Task(UpdateItem, updatedProperties));
      }
      assert items[..|items|] == items;
    }

    // ---------------------------------------------------------------------
    // Filters

    /** onFilterUpdated: the matching items are recomputed from all items
     *  with the current filters, the list is marked changed and the window
     *  goes back to the first item. */
    method OnFilterUpdated(state: ItemState<T>)
      requires Valid()
      modifies this`matchingItems, this`itemListChanged, currentValues
      ensures Valid()
      ensures MatchingIsFiltered(state) && itemListChanged
      ensures currentValues.values == old(currentValues.values)[RangeStart := 0] && currentValues.changed
    {
      var matchers := GetFilterMatchers(filters);
      var itemsNew := CollectMatching(allItems, matchers, state.matches);
      DistinctCounts(itemsNew);
      matchingItems := itemsNew;
      itemListChanged := true;
      currentValues.Set(RangeStart, 0);
    }

    /** clearFilters: no filters, so every item matches as the item state
     *  says for an empty matcher list. */
    method ClearFilters(state: ItemState<T>)
      requires Valid()
      modifies this`filters, this`matchingItems, this`itemListChanged, currentValues
      ensures Valid()
      ensures filters == [] && MatchingIsFiltered(state) && itemListChanged
      ensures currentValues.values == old(currentValues.values)[RangeStart := 0] && currentValues.changed
    {
      filters := [];
      OnFilterUpdated(state);
    }

    /** addFilter: a new empty filter with a fresh token at the end of the
     *  list. */
    method AddFilter() returns (token: FilterToken)
      requires Valid()
      modifies this`filters, this`nextFilterToken
      ensures Valid()
      ensures filters == old(filters) + [Filter(token, 0, -1, "")]
      ensures forall i :: 0 <= i < |old(filters)| ==> old(filters)[i].id != token
    {
      token := nextFilterToken;
      filters := filters + [Filter(token, 0, -1, "")];
      nextFilterToken := nextFilterToken + 1;
    }

    /** setFilterProperties: the filter at `index` is prepared with the
     *  request's pattern, method and property (-1 for an unknown name), and
     *  the matching items are recomputed. */
    method SetFilterProperties(index: nat, req: FilterRequest, state: ItemState<T>)
      requires Valid() && index < |filters|
      modifies this`filters, this`matchingItems, this`itemListChanged, currentValues
      ensures Valid()
      ensures filters == old(filters)[index := Filter(old(filters)[index].id, req.matchMethod,
                                                      FindPropertyByName(req.property, properties), req.pattern)]
      ensures MatchingIsFiltered(state) && itemListChanged
      ensures currentValues.values == old(currentValues.values)[RangeStart := 0] && currentValues.changed
    {
      var prop := FindPropertyByName(req.property, properties);
      filters := filters[index := Filter(filters[index].id, req.matchMethod, prop, req.pattern)];
      OnFilterUpdated(state);
    }

    /** handlePostFilter: add a filter and, when the request has a body,
     *  prepare it; returns the new filter's token. */
    method HandlePostFilter(req: Option<FilterRequest>, state: ItemState<T>) returns (token: FilterToken)
      requires Valid()
      modifies this`filters, this`nextFilterToken, this`matchingItems, this`itemListChanged, currentValues
      ensures Valid()
      ensures forall i :: 0 <= i < |old(filters)| ==> old(filters)[i].id != token
      ensures req.None? ==>
                && filters == old(filters) + [Filter(token, 0, -1, "")]
                && matchingItems == old(matchingItems) && itemListChanged == old(itemListChanged)
                && currentValues.values == old(currentValues.values) && currentValues.changed == old(currentValues.changed)
      ensures req.Some? ==>
                && filters == old(filters) + [Filter(token, req.value.matchMethod,
                                                     FindPropertyByName(req.value.property, properties), req.value.pattern)]
                && MatchingIsFiltered(state) && itemListChanged
                && currentValues.values == old(currentValues.values)[RangeStart := 0] && currentValues.changed
    {
      token := AddFilter();
      if req.Some? {
        SetFilterProperties(|filters| - 1, req.value, state);
      }
    }

    /** handlePutFilter: prepare the filter with token `token` again; false
     *  ("Filter not found") when there is none, and then nothing changes. */
    method HandlePutFilter(token: FilterToken, req: FilterRequest, state: ItemState<T>) returns (found: bool)
      requires Valid()
      modifies this`filters, this`matchingItems, this`itemListChanged, currentValues
      ensures Valid()
      ensures found <==> exists i :: 0 <= i < |old(filters)| && old(filters)[i].id == token
      ensures !found ==> filters == old(filters) && matchingItems == old(matchingItems) && itemListChanged == old(itemListChanged)
                         && currentValues.values == old(currentValues.values) && currentValues.changed == old(currentValues.changed)
      ensures found ==>
                && currentValues.values == old(currentValues.values)[RangeStart := 0] && currentValues.changed
                && |filters| == |old(filters)|
                && (forall i :: 0 <= i < |filters| && filters[i].id != token ==> filters[i] == old(filters)[i])
                && (forall i :: 0 <= i < |filters| && filters[i].id == token ==>
                      filters[i] == Filter(token, req.matchMethod, FindPropertyByName(req.property, properties), req.pattern))
                && MatchingIsFiltered(state) && itemListChanged
    {
      var index := FindFilter(filters, token);
      if index < 0 {
        return false;
      }
      SetFilterProperties(index, req, state);
      found := true;
    }

    /** removeFilter (and handleDeleteFilter): erase the filter with token
     *  `token`; false ("Filter not found") when there is none, and then
     *  nothing changes. Tokens are unique, so no filter with the token is
     *  left. */
    method RemoveFilter(token: FilterToken, state: ItemState<T>) returns (removed: bool)
      requires Valid()
      modifies this`filters, this`matchingItems, this`itemListChanged, currentValues
      ensures Valid()
      ensures removed <==> FindFilter(old(filters), token) >= 0
      ensures !removed ==> filters == old(filters) && matchingItems == old(matchingItems) && itemListChanged == old(itemListChanged)
                           && currentValues.values == old(currentValues.values) && currentValues.changed == old(currentValues.changed)
      ensures removed ==>
                && filters == RemoveAt(old(filters), FindFilter(old(filters), token))
                && (forall f :: f in filters <==> f in old(filters) && f.id != token)
                && MatchingIsFiltered(state) && itemListChanged
                && currentValues.values == old(currentValues.values)[RangeStart := 0] && currentValues.changed
    {
      var index := FindFilter(filters, token);
      if index < 0 {
        return false;
      }
      RemoveFilterByToken(filters, index, token);
      EraseFilter(index, state);
      removed := true;
    }

    /** The found branch of removeFilter: erase the filter at `index` and
     *  recompute the matching items. */
    method EraseFilter(index: nat, state: ItemState<T>)
      requires Valid() && index < |filters|
      modifies this`filters, this`matchingItems, this`itemListChanged, currentValues
      ensures Valid()
      ensures filters == RemoveAt(old(filters), index)
      ensures MatchingIsFiltered(state) && itemListChanged
      ensures currentValues.values == old(currentValues.values)[RangeStart := 0] && currentValues.changed
    {
      RemoveFilterKeepsTokens(filters, index, nextFilterToken);
      filters := RemoveAt(filters, index);
      OnFilterUpdated(state);
    }

    // ---------------------------------------------------------------------
    // Settings

    /** parseProperties: a request with a negative range start or an unknown
     *  sort property is rejected whole, with nothing changed. Otherwise
     *  `paused` stops or starts the flush, and the requested values are
     *  stored, marking the settings changed, when there is at least one. */
    method ParseProperties(req: SettingsRequest) returns (error: Option<SettingsError>)
      requires Valid()
      modifies this`timerRunning, currentValues
      ensures Valid()
      ensures ParseSettings(req, properties).Failure? ==>
                && error == Some(ParseSettings(req, properties).error)
                && timerRunning == old(timerRunning)
                && currentValues.values == old(currentValues.values)
                && currentValues.changed == old(currentValues.changed)
      ensures ParseSettings(req, properties).Success? ==>
                && error == None
                && timerRunning == (if req.paused.Some? then !req.paused.value else old(timerRunning))
                && currentValues.values == old(currentValues.values) + ParseSettings(req, properties).value
                && currentValues.changed == (old(currentValues.changed) || ParseSettings(req, properties).value != map[])
    {
      var parsed := ParseSettings(req, properties);
      if parsed.Failure? {
        return Some(parsed.error);
      }
      if req.paused.Some? {
        if req.paused.value && timerRunning {
          timerRunning := false;
        } else if !req.paused.value && !timerRunning {
          timerRunning := true;
        }
      }
      if parsed.value != map[] {
        currentValues.SetAll(parsed.value);
      }
      error := None;
    }

    /** handlePostSettings: store the request's settings; a view that was not
     *  active becomes active, loads the source's list and starts flushing.
     *  A rejected request changes nothing. */
    method HandlePostSettings(req: SettingsRequest, source: seq<T>) returns (error: Option<SettingsError>)
      requires Valid()
      modifies this`timerRunning, this`active, this`matchingItems, this`allItems, this`itemListChanged, currentValues
      ensures Valid()
      ensures error.Some? <==> ParseSettings(req, properties).Failure?
      ensures error.Some? ==>
                && error.value == ParseSettings(req, properties).error
                && active == old(active) && timerRunning == old(timerRunning)
                && matchingItems == old(matchingItems) && allItems == old(allItems) && itemListChanged == old(itemListChanged)
                && currentValues.values == old(currentValues.values) && currentValues.changed == old(currentValues.changed)
      ensures error.None? ==>
                && active
                && currentValues.values == old(currentValues.values) + ParseSettings(req, properties).value
                && currentValues.changed == (old(currentValues.changed) || ParseSettings(req, properties).value != map[])
      ensures error.None? && !old(active) ==>
                && timerRunning && itemListChanged
                && matchingItems == source && allItems == old(allItems) + set x | x in source
      ensures error.None? && old(active) ==>
                && matchingItems == old(matchingItems) && allItems == old(allItems) && itemListChanged == old(itemListChanged)
                && timerRunning == (if req.paused.Some? then !req.paused.value else old(timerRunning))
    {
      error := ParseProperties(req);
      if error.Some? {
        return;
      }
      if !active {
        active := true;
        var _ := UpdateList(source);
        timerRunning := true;
      }
    }

    /** handleReset: stop an active view; false ("The view isn't active")
     *  for an inactive one, which is left as it is. */
    method HandleReset() returns (ok: bool)
      requires Valid()
      modifies this`active, this`timerRunning, this`tasks, this`currentViewItems, this`matchingItems,
               this`allItems, this`prevTotalItemCount, this`prevMatchingItemCount, this`filters,
               currentValues`values
      ensures Valid()
      ensures ok == old(active)
      ensures !ok ==> && !active && timerRunning == old(timerRunning)
                      && tasks == old(tasks) && matchingItems == old(matchingItems) && allItems == old(allItems)
                      && currentViewItems == old(currentViewItems) && filters == old(filters)
                      && prevMatchingItemCount == old(prevMatchingItemCount) && prevTotalItemCount == old(prevTotalItemCount)
                      && currentValues.values == old(currentValues.values)
      ensures ok ==> !active && !timerRunning && Cleared() && currentValues.values == Unset
    {
      if !active {
        return false;
      }
      Stop();
      ok := true;
    }

    // ---------------------------------------------------------------------
    // Applying the tasks

    /** handleAddItem: the item joins all items and, when it passes the
     *  filters, goes into the matching list at the upper bound of its sort
     *  key. An item already present is inserted again. */
    method HandleAddItem(item: T, sortProperty: int, sortAscending: int, rangeStart: int, state: ItemState<T>)
      returns (newStart: int)
      modifies this`matchingItems, this`allItems
      ensures Lists(matchingItems, allItems, newStart)
              == AddStep(Lists(old(matchingItems), old(allItems), rangeStart), item, Key(state, sortProperty, sortAscending), Matches(state, item))
    {
      var matchers := GetFilterMatchers(filters);
      var matches := state.matches(item, matchers);
      allItems := allItems + {item};
      newStart := rangeStart;
      if matches {
        var pos := UpperBound(matchingItems, item, Key(state, sortProperty, sortAscending));
        matchingItems := InsertAt(matchingItems, pos, item);
        if pos < rangeStart {
          newStart := rangeStart + 1;
        }
      }
    }

    /** handleRemoveItem: an item in the matching list leaves it (its first
     *  occurrence) and leaves all items; an item not in the matching list
     *  changes nothing, even if it is among all items. */
    method HandleRemoveItem(item: T, rangeStart: int) returns (newStart: int)
      modifies this`matchingItems, this`allItems
      ensures Lists(matchingItems, allItems, newStart) == RemoveStep(Lists(old(matchingItems), old(allItems), rangeStart), item)
    {
      var pos := IndexOf(matchingItems, item);
      if pos < 0 {
        return rangeStart;
      }
      matchingItems := RemoveAt(matchingItems, pos);
      allItems := allItems - {item};
      newStart := rangeStart;
      if rangeStart > 0 && pos > rangeStart {
        newStart := rangeStart - 1;
      }
    }

    /** handleUpdateItem: an update of an unknown item is dropped; an item
     *  that stopped passing the filters is removed, one that started passing
     *  them is added. Returns true only when the item stays in the matching
     *  list, i.e. its changed properties are to be sent. */
    method HandleUpdateItem(item: T, sortProperty: int, sortAscending: int, rangeStart: int, state: ItemState<T>)
      returns (updated: bool, newStart: int)
      modifies this`matchingItems, this`allItems
      ensures updated <==> item in old(matchingItems) && Matches(state, item)
      ensures Lists(matchingItems, allItems, newStart)
              == UpdateStep(Lists(old(matchingItems), old(allItems), rangeStart), item, Key(state, sortProperty, sortAscending), Matches(state, item))
    {
      var inList := item in matchingItems;
      if !inList && item !in allItems {
        return false, rangeStart;
      }
      var matchers := GetFilterMatchers(filters);
      if !state.matches(item, matchers) {
        newStart := rangeStart;
        if inList {
          newStart := HandleRemoveItem(item, rangeStart);
        }
        return false, newStart;
      } else if !inList {
        newStart := HandleAddItem(item, sortProperty, sortAscending, rangeStart, state);
        return false, newStart;
      }
      return true, rangeStart;
    }

    /** One turn of the loop of handleTasks: the task of item `x` applied;
     *  `updated` tells whether it was an update of an item that stays in the
     *  matching list. */
    method HandleTask(x: T, task: Task, sortProperty: int, sortAscending: int, rangeStart: int, state: ItemState<T>)
      returns (newStart: int, updated: bool)
      modifies this`matchingItems, this`allItems
      ensures Lists(matchingItems, allItems, newStart)
              == TaskStep(Lists(old(matchingItems), old(allItems), rangeStart), x, task.kind, Key(state, sortProperty, sortAscending), Matches(state, x))
      ensures updated <==> task.kind == UpdateItem && x in old(matchingItems) && Matches(state, x)
    {
      updated := false;
      match task.kind {
        case AddItem =>
          newStart := HandleAddItem(x, sortProperty, sortAscending, rangeStart, state);
        case RemoveItem =>
          newStart := HandleRemoveItem(x, rangeStart);
        case UpdateItem =>
          updated, newStart := HandleUpdateItem(x, sortProperty, sortAscending, rangeStart, state);
      }
    }

    /** handleTasks: apply every task, in an order this model leaves open.
     *  Whatever the order, each item ends as `ApplyTask` says for its own
     *  task; items without a task keep their membership. The returned map
     *  holds exactly the updated items that stay in the matching list, with
     *  the properties their update named. A sorted matching list stays
     *  sorted, and a range start keeps its sign. */
    method HandleTasks(taskList: map<T, Task>, sortProperty: int, sortAscending: int, rangeStart: int, state: ItemState<T>)
      returns (newStart: int, updatedItems: map<T, set<PropertyId>>, ghost order: seq<T>)
      modifies this`matchingItems, this`allItems
      ensures IsOrderOf(order, taskList)
      ensures Lists(matchingItems, allItems, newStart)
              == ApplyTasks(Lists(old(matchingItems), old(allItems), rangeStart), order, taskList,
                            Key(state, sortProperty, sortAscending), state, ActiveFilters(filters))
      ensures TasksApplied(matchingItems, allItems, old(matchingItems), old(allItems), taskList, state, ActiveFilters(filters))
      ensures forall x :: x in updatedItems <==>
                          x in taskList && taskList[x].kind == UpdateItem && x in old(matchingItems) && Matches(state, x)
      ensures forall x :: x in updatedItems ==> updatedItems[x] == taskList[x].updatedProperties
      ensures updatedItems == UpdatedEntries(taskList, old(matchingItems), state, ActiveFilters(filters))
      ensures Sorted(old(matchingItems), Key(state, sortProperty, sortAscending)) ==>
                Sorted(matchingItems, Key(state, sortProperty, sortAscending))
      ensures rangeStart < 0 ==> newStart == rangeStart
      ensures rangeStart >= 0 ==> newStart >= 0
    {
      ghost var key := Key(state, sortProperty, sortAscending);
      ghost var matchers := ActiveFilters(filters);
      ghost var init := Lists(matchingItems, allItems, rangeStart);
      ghost var done: seq<T> := [];
      newStart := rangeStart;
      updatedItems := map[];
      var rest := taskList.Keys;
      while rest != {}
        invariant rest <= taskList.Keys
        invariant forall x :: x in done <==> x in taskList && x !in rest
        invariant forall i, j :: 0 <= i < j < |done| ==> done[i] != done[j]
        invariant Lists(matchingItems, allItems, newStart) == ApplyTasks(init, done, taskList, key, state, matchers)
        invariant forall x :: x in updatedItems <==>
                              x in done && taskList[x].kind == UpdateItem && x in init.matching && state.matches(x, matchers)
        invariant forall x :: x in updatedItems ==> updatedItems[x] == taskList[x].updatedProperties
        decreases rest
      {
        var x :| x in rest;
        ApplyTasksLeaves(init, done, taskList, key, state, matchers, x);
        assert x in matchingItems <==> x in init.matching by {
          assert MembershipOf(Lists(matchingItems, allItems, newStart), x) == MembershipOf(init, x);
        }
        var updated;
        newStart, updated := HandleTask(x, taskList[x], sortProperty, sortAscending, newStart, state);
        if updated {
          updatedItems := updatedItems[x := taskList[x].updatedProperties];
        }
        assert (done + [x])[..|done|] == done;
        done := done + [x];
        rest := rest - {x};
      }
      ApplyAllTasks(init, done, taskList, key, state, matchers);
      ApplyTasksKeeps(init, done, taskList, key, state, matchers);
      UpdatedEntriesExactly(updatedItems, taskList, init.matching, state, matchers);
      order := done;
    }

    /** maybeSort: sort the matching list (stably) when `NeedSort` says so;
     *  the list-changed flag is cleared either way. */
    method MaybeSort(updatedProperties: set<PropertyId>, sortProperty: int, sortAscending: int, state: ItemState<T>)
      modifies this`matchingItems, this`itemListChanged
      ensures !itemListChanged
      ensures multiset(matchingItems) == multiset(old(matchingItems))
      ensures NeedSort(updatedProperties, sortProperty, sortAscending, prevValues, old(itemListChanged)) ==>
                && matchingItems == SortStable(old(matchingItems), Key(state, sortProperty, sortAscending))
                && Sorted(matchingItems, Key(state, sortProperty, sortAscending))
                && forall k :: KeyFilter(matchingItems, Key(state, sortProperty, sortAscending), k)
                               == KeyFilter(old(matchingItems), Key(state, sortProperty, sortAscending), k)
      ensures !NeedSort(updatedProperties, sortProperty, sortAscending, prevValues, old(itemListChanged)) ==>
                matchingItems == old(matchingItems)
    {
      var needSort := sortProperty in updatedProperties
        || Get(prevValues, SortAscending) != sortAscending
        || Get(prevValues, SortProperty) != sortProperty
        || itemListChanged;
      itemListChanged := false;
      if needSort {
        var key := Key(state, sortProperty, sortAscending);
        SortStableIsStableSort(matchingItems, key);
        matchingItems := SortStable(matchingItems, key);
      }
    }

    /** appendItemCounts: each count is sent when it differs from the one
     *  sent last, and remembered. */
    method AppendItemCounts() returns (matchingCount: Option<int>, totalCount: Option<int>)
      modifies this`prevMatchingItemCount, this`prevTotalItemCount
      ensures matchingCount == CountUpdate(old(prevMatchingItemCount), |matchingItems|)
      ensures totalCount == CountUpdate(old(prevTotalItemCount), |allItems|)
      ensures prevMatchingItemCount == |matchingItems| && prevTotalItemCount == |allItems|
    {
      matchingCount, totalCount := None, None;
      if |matchingItems| != prevMatchingItemCount {
        prevMatchingItemCount := |matchingItems|;
        matchingCount := Some(|matchingItems|);
      }
      if |allItems| != prevTotalItemCount {
        prevTotalItemCount := |allItems|;
        totalCount := Some(|allItems|);
      }
    }

    /** Whether a flush has anything to do. */
    ghost predicate HasWork()
      reads this, currentValues
    {
      tasks.tasks != map[] || currentValues.changed || itemListChanged
    }

    /** The window part of a message: the start used (clamped against all
     *  items), its offset from the requested start, and the visible items
     *  listed at their positions. */
    ghost predicate WindowSent(d: Diff<T>, start: int, requested: int, maxCount: int, previous: seq<T>, updated: map<T, set<PropertyId>>)
      reads this
    {
      && d.rangeStart == Some(ClampStart(start, |allItems|))
      && 0 <= d.rangeStart.value
      && (d.rangeStart.value < |allItems| || d.rangeStart.value == 0)
      && d.rangeOffset == (if d.rangeStart.value != requested then Some(d.rangeStart.value - requested) else None)
      && currentViewItems == Window(matchingItems, d.rangeStart.value, maxCount)
      && (d.items.None? <==> WindowCount(|matchingItems|, d.rangeStart.value, maxCount) < 0)
      && (d.items.Some? ==> EntriesDescribe(d.items.value, currentViewItems, previous, updated, AllPropertyIds(properties)))
    }

    /** What a flush of an active view leaves and sends: the settings and
     *  counts remembered, the counts that changed sent, and the window when
     *  a range start is set. */
    ghost predicate Published(sent: Option<Diff<T>>, values: ValueMap, start: int, previous: seq<T>, updated: map<T, set<PropertyId>>,
                              prevMatching: int, prevTotal: int)
      reads this
    {
      && prevValues == values
      && prevMatchingItemCount == |matchingItems| && prevTotalItemCount == |allItems|
      && (if sent.Some? then sent.value.matchingItems else None) == CountUpdate(prevMatching, |matchingItems|)
      && (if sent.Some? then sent.value.totalItems else None) == CountUpdate(prevTotal, |allItems|)
      && (Get(values, RangeStart) < 0 ==>
            && currentViewItems == []
            && (sent.Some? ==> sent.value.items.None? && sent.value.rangeStart.None? && sent.value.rangeOffset.None?))
      && (Get(values, RangeStart) >= 0 ==>
            sent.Some? && WindowSent(sent.value, start, Get(values, RangeStart), Get(values, MaxCount), previous, updated))
    }

    /** runTasks, one flush: take the queued tasks; stop when there is
     *  nothing to do; take the settings (clearing their changed flag); stop
     *  when no sort property is set, dropping the tasks taken; otherwise
     *  `Flush`. */
    method RunTasks(state: ItemState<T>) returns (sent: Option<Diff<T>>, ghost sortedList: seq<T>, ghost order: seq<T>, ghost start: int)
      requires Valid()
      modifies this`tasks, this`matchingItems, this`allItems, this`itemListChanged, this`prevValues,
               this`currentViewItems, this`prevMatchingItemCount, this`prevTotalItemCount, currentValues`changed
      ensures Valid()
      ensures tasks == NoTasks() && !currentValues.changed
      ensures sent.Some? ==> !sent.value.IsEmpty()
      // Nothing to do, or no sort property yet: no message and no change to the lists.
      ensures !old(HasWork()) || Get(currentValues.values, SortProperty) < 0 ==>
                && sent == None
                && matchingItems == old(matchingItems) && allItems == old(allItems)
                && currentViewItems == old(currentViewItems) && prevValues == old(prevValues)
                && prevMatchingItemCount == old(prevMatchingItemCount) && prevTotalItemCount == old(prevTotalItemCount)
                && itemListChanged == old(itemListChanged)
      // A flush: every queued task applied, the list kept sorted.
      ensures old(HasWork()) && Get(currentValues.values, SortProperty) >= 0 ==>
                && !itemListChanged
                && sortedList == (if NeedSort(old(tasks.updatedProperties), Get(currentValues.values, SortProperty),
                                              Get(currentValues.values, SortAscending), old(prevValues), old(itemListChanged))
                                  then SortStable(old(matchingItems), Key(state, Get(currentValues.values, SortProperty), Get(currentValues.values, SortAscending)))
                                  else old(matchingItems))
                && IsOrderOf(order, old(tasks.tasks))
                && Lists(matchingItems, allItems, start)
                   == ApplyTasks(Lists(sortedList, old(allItems), Get(currentValues.values, RangeStart)), order, old(tasks.tasks),
                                 Key(state, Get(currentValues.values, SortProperty), Get(currentValues.values, SortAscending)),
                                 state, ActiveFilters(filters))
                && TasksApplied(matchingItems, allItems, old(matchingItems), old(allItems), old(tasks.tasks), state, ActiveFilters(filters))
                && (NeedSort(old(tasks.updatedProperties), Get(currentValues.values, SortProperty),
                             Get(currentValues.values, SortAscending), old(prevValues), old(itemListChanged))
                    || Sorted(old(matchingItems), Key(state, Get(currentValues.values, SortProperty), Get(currentValues.values, SortAscending)))
                    ==> Sorted(matchingItems, Key(state, Get(currentValues.values, SortProperty), Get(currentValues.values, SortAscending))))
      // A view that went inactive sends nothing.
      ensures old(HasWork()) && Get(currentValues.values, SortProperty) >= 0 && !active ==>
                && sent == None
                && currentViewItems == old(currentViewItems) && prevValues == old(prevValues)
                && prevMatchingItemCount == old(prevMatchingItemCount) && prevTotalItemCount == old(prevTotalItemCount)
      // An active view remembers the settings and counts and sends what changed.
      ensures old(HasWork()) && Get(currentValues.values, SortProperty) >= 0 && active ==>
                Published(sent, currentValues.values, start, old(currentViewItems),
                          UpdatedEntries(old(tasks.tasks), old(matchingItems), state, ActiveFilters(filters)),
                          old(prevMatchingItemCount), old(prevTotalItemCount))
    {
      var currentTasks := tasks.tasks;
      var updatedProperties := tasks.updatedProperties;
      tasks := NoTasks();

      if currentTasks == map[] && !currentValues.changed && !itemListChanged {
        sent, sortedList, order, start := None, matchingItems, [], 0;
        return;
      }

      var updateValues := currentValues.GetAll();
      var sortProperty := Get(updateValues, SortProperty);
      if sortProperty < 0 {
        sent, sortedList, order, start := None, matchingItems, [], 0;
        return;
      }
      ghost var updated;
      sent, sortedList, order, start, updated := Flush(currentTasks, updatedProperties, updateValues, state);
    }

    /** The rest of a flush once a sort property is set: `UpdateLists`,
     *  then `Publish`. */
    method Flush(taskList: map<T, Task>, updatedProperties: set<PropertyId>, values: ValueMap, state: ItemState<T>)
      returns (sent: Option<Diff<T>>, ghost sortedList: seq<T>, ghost order: seq<T>, ghost start: int,
               ghost updated: map<T, set<PropertyId>>)
      modifies this`matchingItems, this`allItems, this`itemListChanged, this`prevValues,
               this`currentViewItems, this`prevMatchingItemCount, this`prevTotalItemCount
      ensures !itemListChanged
      ensures sortedList == (if NeedSort(updatedProperties, Get(values, SortProperty), Get(values, SortAscending), old(prevValues), old(itemListChanged))
                             then SortStable(old(matchingItems), Key(state, Get(values, SortProperty), Get(values, SortAscending)))
                             else old(matchingItems))
      ensures IsOrderOf(order, taskList)
      ensures Lists(matchingItems, allItems, start)
              == ApplyTasks(Lists(sortedList, old(allItems), Get(values, RangeStart)), order, taskList,
                            Key(state, Get(values, SortProperty), Get(values, SortAscending)), state, ActiveFilters(filters))
      ensures TasksApplied(matchingItems, allItems, old(matchingItems), old(allItems), taskList, state, ActiveFilters(filters))
      ensures NeedSort(updatedProperties, Get(values, SortProperty), Get(values, SortAscending), old(prevValues), old(itemListChanged))
              || Sorted(old(matchingItems), Key(state, Get(values, SortProperty), Get(values, SortAscending)))
              ==> Sorted(matchingItems, Key(state, Get(values, SortProperty), Get(values, SortAscending)))
      ensures updated == UpdatedEntries(taskList, old(matchingItems), state, ActiveFilters(filters))
      ensures sent.Some? ==> !sent.value.IsEmpty()
      ensures !active ==>
                && sent == None
                && currentViewItems == old(currentViewItems) && prevValues == old(prevValues)
                && prevMatchingItemCount == old(prevMatchingItemCount) && prevTotalItemCount == old(prevTotalItemCount)
      ensures active ==>
                Published(sent, values, start, old(currentViewItems), updated, old(prevMatchingItemCount), old(prevTotalItemCount))
    {
      var newStart, updatedItems;
      newStart, updatedItems, sortedList, order := UpdateLists(taskList, updatedProperties, values, state);
      start, updated := newStart, updatedItems;
      assert currentViewItems == old(currentViewItems) && prevMatchingItemCount == old(prevMatchingItemCount)
             && prevTotalItemCount == old(prevTotalItemCount);
      sent := Publish(updatedItems, newStart, values);
    }

    /** The list part of a flush: `MaybeSort`, then `HandleTasks`. */
    method UpdateLists(taskList: map<T, Task>, updatedProperties: set<PropertyId>, values: ValueMap, state: ItemState<T>)
      returns (newStart: int, updatedItems: map<T, set<PropertyId>>, ghost sortedList: seq<T>, ghost order: seq<T>)
      modifies this`matchingItems, this`allItems, this`itemListChanged
      ensures !itemListChanged
      ensures sortedList == (if NeedSort(updatedProperties, Get(values, SortProperty), Get(values, SortAscending), prevValues, old(itemListChanged))
                             then SortStable(old(matchingItems), Key(state, Get(values, SortProperty), Get(values, SortAscending)))
                             else old(matchingItems))
      ensures IsOrderOf(order, taskList)
      ensures Lists(matchingItems, allItems, newStart)
              == ApplyTasks(Lists(sortedList, old(allItems), Get(values, RangeStart)), order, taskList,
                            Key(state, Get(values, SortProperty), Get(values, SortAscending)), state, ActiveFilters(filters))
      ensures TasksApplied(matchingItems, allItems, old(matchingItems), old(allItems), taskList, state, ActiveFilters(filters))
      ensures NeedSort(updatedProperties, Get(values, SortProperty), Get(values, SortAscending), prevValues, old(itemListChanged))
              || Sorted(old(matchingItems), Key(state, Get(values, SortProperty), Get(values, SortAscending)))
              ==> Sorted(matchingItems, Key(state, Get(values, SortProperty), Get(values, SortAscending)))
      ensures Get(values, RangeStart) < 0 ==> newStart == Get(values, RangeStart)
      ensures Get(values, RangeStart) >= 0 ==> newStart >= 0
      ensures updatedItems == UpdatedEntries(taskList, old(matchingItems), state, ActiveFilters(filters))
    {
      var sortAscending := Get(values, SortAscending);
      var sortProperty := Get(values, SortProperty);
      MaybeSort(updatedProperties, sortProperty, sortAscending, state);
      sortedList := matchingItems;
      newStart, updatedItems, order := HandleTasks(taskList, sortProperty, sortAscending, Get(values, RangeStart), state);
      TasksAppliedPermuted(matchingItems, allItems, sortedList, old(matchingItems), old(allItems), taskList, state, ActiveFilters(filters));
      UpdatedEntriesPermuted(taskList, old(matchingItems), sortedList, state, ActiveFilters(filters));
    }

    /** The end of a flush: when a range start is set, cut the window and
     *  report the start used and its offset from the requested one; stop
     *  when the view went inactive; remember the settings and the window;
     *  append the counts; and send the message unless it is empty. */
    method Publish(updatedItems: map<T, set<PropertyId>>, newStart: int, values: ValueMap)
      returns (sent: Option<Diff<T>>)
      requires Get(values, RangeStart) < 0 ==> newStart == Get(values, RangeStart)
      requires Get(values, RangeStart) >= 0 ==> newStart >= 0
      modifies this`prevValues, this`currentViewItems, this`prevMatchingItemCount, this`prevTotalItemCount
      ensures sent.Some? ==> !sent.value.IsEmpty()
      ensures !active ==>
                && sent == None
                && currentViewItems == old(currentViewItems) && prevValues == old(prevValues)
                && prevMatchingItemCount == old(prevMatchingItemCount) && prevTotalItemCount == old(prevTotalItemCount)
      ensures active ==>
                Published(sent, values, newStart, old(currentViewItems), updatedItems, old(prevMatchingItemCount), old(prevTotalItemCount))
    {
      var requestedStart := Get(values, RangeStart);
      var start := newStart;
      var items: Option<seq<ItemEntry<T>>> := None;
      var rangeStartField: Option<int> := None;
      var rangeOffsetField: Option<int> := None;
      var newViewItems: seq<T> := [];
      if start >= 0 {
        start, items, newViewItems := UpdateViewItems(updatedItems, matchingItems, |allItems|, currentViewItems,
                                                      start, Get(values, MaxCount), AllPropertyIds(properties));
        var startOffset := start - requestedStart;
        if startOffset != 0 {
          rangeOffsetField := Some(startOffset);
        }
        rangeStartField := Some(start);
      }

      if !active {
        return None;
      }

      prevValues := values;
      currentViewItems := newViewItems;

      var matchingCount, totalCount := AppendItemCounts();
      var diff := Diff(items, rangeStartField, rangeOffsetField, matchingCount, totalCount);
      sent := if diff.IsEmpty() then None else Some(diff);
    }
  }

  /** The items of a message list the visible items at their positions: an
   *  item that was not visible before goes out with every property, a
   *  visible one the flush updated with the properties its update named,
   *  and any other visible one with its id only. */
  ghost predicate EntriesDescribe<T>(entries: seq<ItemEntry<T>>, view: seq<T>, previous: seq<T>,
                                     updated: map<T, set<PropertyId>>, allProperties: set<PropertyId>)
  {
    && |entries| == |view|
    && forall i :: 0 <= i < |view| ==>
         && entries[i].item == view[i]
         && entries[i].position == i
         && (view[i] !in previous ==> entries[i].properties == Some(allProperties))
         && (view[i] in previous && view[i] in updated ==> entries[i].properties == Some(updated[view[i]]))
         && (view[i] in previous && view[i] !in updated ==> entries[i].properties.None?)
  }

}
