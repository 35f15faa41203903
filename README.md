# ListViewController — a Dafny model

This project models the live list view of the AirDC++ web API
(`ListViewController<T, PropertyCount>`). A view holds the items of one
source (hubs, queue bundles, search results, ...) and keeps:

- the set of all items;
- the matching items, which pass the view's filters, in sort order;
- the window that the client last saw.

Item events (`onItemAdded`, `onItemRemoved`, `onItemUpdated`) are queued as
tasks. A periodic flush (`runTasks`) then:

1. sorts the matching list again when needed;
2. applies the tasks incrementally, shifting the requested range start;
3. cuts the new window;
4. sends one `<view>_updated` message with the visible items, the start used
   and the counts that changed.

Filters are added, prepared and removed through requests. Each change
recomputes the matching list. Settings requests set the sort property, the
sort direction, the range start and the maximum count, and can pause the
flush.

Modules:

- `Options`: `Option` and `Result`.
- `PropertyRegistry`: property descriptors, the property lookup by name, and
  the set of all property ids.
- `ItemOrder`: `itemSort` and its integer sort key, `std::upper_bound`,
  insertion and erasure in a sequence, and `std::stable_sort`. The stable
  sort is proved sorted, a permutation and stable.
- `Filters`: filters, their tokens, the matchers, the token lookup, and the
  recomputation of the matching items.
- `ViewSettings`: the `IntCollector` class and the validation done by
  `parseProperties`.
- `ViewTasks`: the task queue (`ItemTasks`) and how tasks for one item are
  coalesced.
- `ViewDiff`: the update message and `updateViewItems`.
- `ItemLists`: the add, remove and update steps as functions on the lists,
  and the whole task loop as a fold (`ApplyTasks`) over the order the tasks
  happen to run in. Their membership, sortedness and range-start properties
  are proved here.
- `ListView`: the `ListViewController` class. Its fields are the source's
  fields, and its methods are the source's operations. One field is added:
  `nextFilterToken` stands for the token generator of `PropertyFilter`
  (each new filter gets a token no other filter has), whose code is not
  part of this model. Each step method
  (`HandleAddItem`, `HandleRemoveItem`, `HandleUpdateItem`, `HandleTask`) is
  proved to compute its `ItemLists` step function. `HandleTasks`, and with
  it a flush, is proved to compute `ApplyTasks` over an order that lists
  every task once: the resulting lists and range start are exactly that
  fold's.

Two inputs are passed to every operation that reads items, because the
items are live objects whose values change:

- an `ItemState`, which gives the sort rank of an item's property value and
  whether an item passes a list of matchers;
- the source's current list (`itemListF`), as a sequence.

## Model

The value-level definitions that the rows below refer to carry no row of
their own: `ItemOrder.ItemSort` (itemSort, h:373-393), `ItemOrder.KeyOf`,
`ItemOrder.SortStable` (the stable sort), and in `ItemLists` the steps
`AddStep`, `RemoveStep`, `UpdateStep` and `TaskStep`, the fold
`ApplyTasks`, and `UpdatedEntries`. Their properties are stated by the
lemmas and methods listed.

| member | source | states |
|---|---|---|
| PropertyRegistry.FindPropertyByName | airdcpp-webapi/api/common/ListViewController.h:312-319 | -1 exactly when no property has the name; otherwise the first property with that name |
| PropertyRegistry.AllPropertyIds | airdcpp-webapi/api/common/ListViewController.h:693-695 | the ids of all properties, `0 <= p < |properties|` |
| ItemOrder.ItemSortIsKeyOrder | airdcpp-webapi/api/common/ListViewController.h:373-393 | itemSort(t1, t2) holds iff t1's integer sort key is below t2's (direction 1 ascending, any other value descending); SORT_NONE orders no two items |
| ItemOrder.UpperBound | airdcpp-webapi/api/common/ListViewController.h:625-630 | the halving search of `std::upper_bound` returns an index within the list |
| ItemOrder.UpperBoundIsPartitionPoint | airdcpp-webapi/api/common/ListViewController.h:625-630 | on a sorted list, every item before the upper bound has a key <= the new item's, and every item from it on has a greater key |
| ItemOrder.IndexOf | airdcpp-webapi/api/common/ListViewController.h:413-432 | findItem/getPosition: -1 iff the item is absent, else the index of its first occurrence |
| ItemOrder.InsertAt | airdcpp-webapi/api/common/ListViewController.h:627-631 | `vector::insert`: the item at the index, the items before it unchanged, the items after it shifted by one, a multiset grown by the item |
| ItemOrder.RemoveAt | airdcpp-webapi/api/common/ListViewController.h:652 | `vector::erase`: the items before the index unchanged, the later ones shifted down by one, a multiset less that item |
| ItemOrder.InsertAtUpperBound | airdcpp-webapi/api/common/ListViewController.h:625-632 | inserting at the upper bound keeps a sorted list sorted; items with equal keys keep their order, with the new item after them |
| ItemOrder.RemoveAtSorted | airdcpp-webapi/api/common/ListViewController.h:642-653 | erasing any index keeps a sorted list sorted |
| ItemOrder.SortStableIsStableSort | airdcpp-webapi/api/common/ListViewController.h:589-596 | `std::stable_sort` by itemSort: the result is sorted, a permutation of the input, and keeps the order of the items of every key |
| Filters.ActiveFilters | airdcpp-webapi/api/common/ListViewController.h:140-151 | a filter is a matcher iff it is one of the filters and is not empty |
| Filters.GetFilterMatchers | airdcpp-webapi/api/common/ListViewController.h:140-151 | the loop returns exactly `ActiveFilters`, in list order |
| Filters.FindFilter | airdcpp-webapi/api/common/ListViewController.h:153-155 | `find_if` by token: -1 iff no filter has the token, else the first filter that has it |
| Filters.CollectMatching | airdcpp-webapi/api/common/ListViewController.h:253-265 | an item is collected iff it is among all items and passes the matchers; no item is collected twice |
| ViewSettings.IntCollector.constructor | airdcpp-webapi/api/common/ListViewController.h:736-739 | every value is -1 and the collector is marked changed |
| ViewSettings.IntCollector.Reset | airdcpp-webapi/api/common/ListViewController.h:741-745 | every value type is set to -1; the changed flag is left alone |
| ViewSettings.IntCollector.Set | airdcpp-webapi/api/common/ListViewController.h:747-750 | one value is replaced and the collector is marked changed |
| ViewSettings.IntCollector.SetAll | airdcpp-webapi/api/common/ListViewController.h:752-757 | the given values override the old ones, the others are kept, and the collector is marked changed |
| ViewSettings.IntCollector.GetAll | airdcpp-webapi/api/common/ListViewController.h:759-762 | returns the values and clears the changed flag |
| ViewSettings.ParseSettings | airdcpp-webapi/api/common/ListViewController.h:297-322 | the request is rejected iff its range start is negative or its sort property is unknown (range start checked first); otherwise it holds exactly the fields present, with the sort property's index and the direction as 1/0 |
| ViewTasks.Merge | airdcpp-webapi/api/common/ListViewController.h:93-109 | a later add or remove replaces the queued kind, a later update keeps it; the property sets are united |
| ViewTasks.Queue | airdcpp-webapi/api/common/ListViewController.h:93-109 | queuing touches only the item's own task and adds the task's properties to the queue's set |
| ViewTasks.CoalescingKeepsNetEffect | airdcpp-webapi/api/common/ListViewController.h:93-109 | an update after an add is still an add; a remove after anything is a remove; an update's properties are kept |
| ViewTasks.QueueUpdates | airdcpp-webapi/api/common/ListViewController.h:111-117 | every listed item gets a task that keeps its queued kind (update if none) and carries the properties; other items are untouched |
| ViewDiff.ClampStart | airdcpp-webapi/api/common/ListViewController.h:535-537 | a start at or past the number of all items becomes 0; otherwise it is kept |
| ViewDiff.WindowCount | airdcpp-webapi/api/common/ListViewController.h:539 | the count is at most the items left after the start and at most the maximum count, and equals one of them |
| ViewDiff.Window | airdcpp-webapi/api/common/ListViewController.h:539-552 | the maxCount items from the start (fewer at the end of the list); empty for a negative count |
| ViewDiff.UpdateViewItems | airdcpp-webapi/api/common/ListViewController.h:530-574 | the start is clamped and the window cut; no items when the count is negative; each visible item is listed at its position with every property when it is new to the window, with its updated properties when it was updated, else with its id only |
| ViewDiff.CountUpdate | airdcpp-webapi/api/common/ListViewController.h:601-619 | a count is sent iff it differs from the last one sent |
| ItemLists.InsertMatching | airdcpp-webapi/api/common/ListViewController.h:621-640 | the list grows by the item at the upper bound, other items keep their order; the start rises by one only when it is positive and the insertion lands before it, so the first visible item stays first, unless the item lands exactly at the start, where it becomes the first visible item |
| ItemLists.InsertMatchingKeepsSorted | airdcpp-webapi/api/common/ListViewController.h:625-632 | the insertion keeps a sorted matching list sorted |
| ItemLists.RemoveMatching | airdcpp-webapi/api/common/ListViewController.h:642-659 | an absent item changes nothing; otherwise its first occurrence goes and the others keep their order; the start drops by one only when it is positive and the removed index is after it, so the window moves by one item when the removal is before it or after it |
| ItemLists.RemoveMatchingKeepsSorted | airdcpp-webapi/api/common/ListViewController.h:642-653 | the removal keeps a sorted matching list sorted |
| ItemLists.AddStepMembership | airdcpp-webapi/api/common/ListViewController.h:621-640 | handleAddItem puts the item among all items and, when it matches, into the matching list once more; no other item changes |
| ItemLists.RemoveStepMembership | airdcpp-webapi/api/common/ListViewController.h:642-659 | handleRemoveItem takes one occurrence and the item itself out when it is in the matching list, else nothing; no other item changes |
| ItemLists.UpdateStepMembership | airdcpp-webapi/api/common/ListViewController.h:661-688 | handleUpdateItem leaves an unknown item alone, removes a listed item that stopped matching and adds a known item that started matching; no other item changes |
| ItemLists.TaskStepMembership | airdcpp-webapi/api/common/ListViewController.h:508-524 | one task changes only its own item's membership, as `ApplyTask` says for its kind |
| ItemLists.TaskStepKeeps | airdcpp-webapi/api/common/ListViewController.h:508-524 | one task keeps a sorted list sorted; a negative start is left as it is and a non-negative one stays non-negative |
| ItemLists.ApplyTasksMembership | airdcpp-webapi/api/common/ListViewController.h:506-528 | for distinct tasks in any order, each item ends as its own task says and items without a task keep their membership |
| ItemLists.ApplyTasksLeaves | airdcpp-webapi/api/common/ListViewController.h:506-528 | tasks for other items leave an item's membership as it was |
| ItemLists.ApplyAllTasks | airdcpp-webapi/api/common/ListViewController.h:506-528 | running every queued task once, in any order, gives the membership `TasksApplied` states |
| ItemLists.ApplyTasksKeeps | airdcpp-webapi/api/common/ListViewController.h:506-528 | the task loop keeps a sorted list sorted and keeps the sign of the start |
| ItemLists.TasksAppliedPermuted | airdcpp-webapi/api/common/ListViewController.h:459-467 | the membership outcome depends only on the multiset of the matching list, so sorting before the tasks does not change it |
| ItemLists.DistinctCounts | airdcpp-webapi/api/common/ListViewController.h:253-265 | a list without repeats, such as the recomputed matching list, holds each of its items exactly once |
| ItemLists.UpdatedEntriesExactly | airdcpp-webapi/api/common/ListViewController.h:518-521 | a map that holds exactly the updated items that were listed and still match, each with its update's properties, is `UpdatedEntries` |
| ItemLists.UpdatedEntriesPermuted | airdcpp-webapi/api/common/ListViewController.h:459-467 | which items a flush reports as updated depends only on the multiset of the matching list, so sorting first does not change it |
| ItemLists.TasksKeepFiltered | airdcpp-webapi/api/common/ListViewController.h:506-528 | a flush keeps the matching list equal to the known items that pass the filters, each once, provided no add task names a known item and every item whose filter result changed has an add or update task |
| ListView.RemoveFilterByToken | airdcpp-webapi/api/common/ListViewController.h:157-171 | with unique tokens, erasing the found filter leaves exactly the other filters |
| ListView.RemoveFilterKeepsTokens | airdcpp-webapi/api/common/ListViewController.h:157-171 | erasing a filter keeps the tokens increasing and below the next token |
| ListView.NeedSort | airdcpp-webapi/api/common/ListViewController.h:576-580 | a list change or an updated sort property forces a sort; no sort means the sort property and direction are those of the last flush |
| ListView.ListViewController.constructor | airdcpp-webapi/api/common/ListViewController.h:714-783 | an inactive view with no items, tasks or filters, every setting -1 and marked changed, and counts -1 |
| ListView.ListViewController.Clear | airdcpp-webapi/api/common/ListViewController.h:362-371 | tasks, window, both lists and filters are emptied, and the counts go back to -1 |
| ListView.ListViewController.Stop | airdcpp-webapi/api/common/ListViewController.h:77-83 | the view is inactive, the flush stopped, everything cleared, and every setting -1 |
| ListView.ListViewController.UpdateList | airdcpp-webapi/api/common/ListViewController.h:354-360 | the matching list becomes the source's list as given, its items join all items, the list is marked changed, and its length is returned |
| ListView.ListViewController.ResetItems | airdcpp-webapi/api/common/ListViewController.h:85-91 | cleared, range start set to 0, and the source's list loaded again |
| ListView.ListViewController.OnItemAdded | airdcpp-webapi/api/common/ListViewController.h:93-97 | an add task is queued when the view is active; otherwise nothing changes |
| ListView.ListViewController.OnItemRemoved | airdcpp-webapi/api/common/ListViewController.h:99-103 | a remove task is queued when the view is active; otherwise nothing changes |
| ListView.ListViewController.OnItemUpdated | airdcpp-webapi/api/common/ListViewController.h:105-109 | an update task with its properties is queued when the view is active; otherwise nothing changes |
| ListView.ListViewController.OnItemsUpdated | airdcpp-webapi/api/common/ListViewController.h:111-117 | one update per listed item, in order, when the view is active |
| ListView.ListViewController.OnFilterUpdated | airdcpp-webapi/api/common/ListViewController.h:253-271 | the matching items are exactly the items passing the filters, each once; the list is marked changed and the range start set to 0 |
| ListView.ListViewController.ClearFilters | airdcpp-webapi/api/common/ListViewController.h:119-126 | no filters are left, and the matching items are recomputed |
| ListView.ListViewController.AddFilter | airdcpp-webapi/api/common/ListViewController.h:173-182 | an empty filter with a token no other filter has is appended |
| ListView.ListViewController.SetFilterProperties | airdcpp-webapi/api/common/ListViewController.h:192-207 | the filter is prepared with the pattern, the method and the property id (-1 if unknown); the matching items are recomputed |
| ListView.ListViewController.HandlePostFilter | airdcpp-webapi/api/common/ListViewController.h:209-221 | a new filter with a fresh token is appended. Without a body the filter is empty, and the matching list, the list-changed flag and the settings are unchanged. With a body the filter is prepared, the matching items are recomputed, the list is marked changed, and the range start is set to 0 and marked changed |
| ListView.ListViewController.HandlePutFilter | airdcpp-webapi/api/common/ListViewController.h:223-240 | found iff a filter has the token. An unknown token ("Filter not found") leaves the filters, the matching list, the list-changed flag and the settings unchanged. Otherwise only that filter is prepared again, the matching items are recomputed, the list is marked changed, and the range start is set to 0 and marked changed |
| ListView.ListViewController.RemoveFilter | airdcpp-webapi/api/common/ListViewController.h:157-171 | removeFilter and handleDeleteFilter: removed iff a filter has the token. An unknown token leaves the filters, the matching list, the list-changed flag and the settings unchanged. Otherwise that filter is erased (the filters left are exactly the old ones without that token), the matching items are recomputed, the list is marked changed, and the range start is set to 0 and marked changed |
| ListView.ListViewController.EraseFilter | airdcpp-webapi/api/common/ListViewController.h:163-170 | the filter at the index is erased, tokens stay unique, and the matching items are recomputed with the range start set to 0 |
| ListView.ListViewController.ParseProperties | airdcpp-webapi/api/common/ListViewController.h:297-340 | a rejected request changes nothing; otherwise `paused` stops or starts the flush, and the parsed values override the settings, marking them changed when there are any |
| ListView.ListViewController.HandlePostSettings | airdcpp-webapi/api/common/ListViewController.h:276-285 | fails iff `ParseSettings` rejects the request, with its error, and then the activity, the timer, both lists, the list-changed flag and the settings are unchanged. Otherwise the parsed values override the settings (marked changed iff any were given) and the view is active. A view that was not active loads the source's list, is marked changed and starts the flush; an active one keeps its lists and flag, and `paused` sets the timer |
| ListView.ListViewController.HandleReset | airdcpp-webapi/api/common/ListViewController.h:287-295 | ok iff the view was active. An inactive view ("The view isn't active") keeps its timer, tasks, both lists, window, filters, counts and settings. An active one is stopped: inactive, timer off, cleared, every setting -1 |
| ListView.ListViewController.HandleAddItem | airdcpp-webapi/api/common/ListViewController.h:621-640 | the lists and the start become `AddStep` of the old ones |
| ListView.ListViewController.HandleRemoveItem | airdcpp-webapi/api/common/ListViewController.h:642-659 | the lists and the start become `RemoveStep` of the old ones |
| ListView.ListViewController.HandleUpdateItem | airdcpp-webapi/api/common/ListViewController.h:661-688 | returns true iff the item was listed and still matches; the lists become `UpdateStep` of the old ones |
| ListView.ListViewController.HandleTask | airdcpp-webapi/api/common/ListViewController.h:508-524 | one task applied as `TaskStep`; reports an update of an item that stays listed |
| ListView.ListViewController.HandleTasks | airdcpp-webapi/api/common/ListViewController.h:506-528 | the returned order lists every task once, and the lists and range start are `ApplyTasks` of the old ones over that order; every item ends as its own task says, whatever the order; the returned map is exactly `UpdatedEntries`: the updated items that were listed and still match, with their properties; a sorted list stays sorted and the start keeps its sign |
| ListView.ListViewController.MaybeSort | airdcpp-webapi/api/common/ListViewController.h:576-599 | the list-changed flag is cleared; when `NeedSort` holds, the list is sorted, a permutation of the old one, and stable; otherwise it is unchanged |
| ListView.ListViewController.AppendItemCounts | airdcpp-webapi/api/common/ListViewController.h:601-619 | each count is sent iff it differs from the last one sent, and is remembered |
| ListView.ListViewController.RunTasks | airdcpp-webapi/api/common/ListViewController.h:435-503 | nothing is sent and no list changes when there is nothing to do or no sort property. Otherwise the list is sorted stably when `NeedSort` holds, and the lists and start become `ApplyTasks` of the sorted list, all items and the requested start, over an order listing every task once; a sorted list stays sorted. An inactive view sends nothing. An active one remembers the settings and counts, sends the counts that changed and, with a range start, sends the fold's start clamped against all items, its offset from the requested start, and the window: each visible item at its position, with every property when it was not visible before, with its update's properties when it is in `UpdatedEntries`, and with its id only otherwise |
| ListView.ListViewController.Flush | airdcpp-webapi/api/common/ListViewController.h:459-503 | sort if needed, apply the tasks and publish: the lists and start are `ApplyTasks` of the (sorted) list over an order listing every task once, the membership is `TasksApplied`, a sorted list stays sorted, and an active view sends the fold's start clamped against all items and the window's entries for the items in `UpdatedEntries` |
| ListView.ListViewController.UpdateLists | airdcpp-webapi/api/common/ListViewController.h:459-467 | the list is `SortStable` of the old one when `NeedSort` holds, else unchanged; the lists and start are then `ApplyTasks` of it over an order listing every task once; the returned map is exactly `UpdatedEntries` of the old list |
| ListView.ListViewController.Publish | airdcpp-webapi/api/common/ListViewController.h:468-503 | an inactive view sends nothing; an active one sends the given start clamped against all items and its offset from the requested one, the window, and the counts that changed, remembers the settings and the window, and sends no empty message; each visible item is listed at its position with every property when it was not visible before, with the given map's properties when the map holds it, and with its id only otherwise |

## Left out

- Locking (`cs`, `RLock`/`WLock`) and the timer thread. Each operation is one atomic step here.
- The timer is a flag (`timerRunning`), not a scheduler. The periodic calls of `runTasks` are not modelled.
- JSON and HTTP: building and sending the message, the response bodies, status codes and error strings, request parsing, and `METHOD_HANDLER` registration. The message is the `Diff` datatype, and a request is the `SettingsRequest` or `FilterRequest` datatype.
- Number formatting of a numeric filter pattern (`Util::toString` of a double). The pattern is a string here.
- `handleGetItems`: it only serializes a slice of the matching list through `Serializer`, which is not part of this model.
- The session listener (`on(SocketDisconnected)` calls `stop`), the destructor, and the `stateChangeF` callback of `setActive`.
- PropertyFilter, PropertyFilter::Matcher, ItemTasks and PropertyItemHandler are not part of this model:
  - a filter is its token and what it was last prepared with;
  - matching is the `matches` function of `ItemState`;
  - the task queue is a map per item, with the coalescing rule assumed for ItemTasks (`ViewTasks.Merge`);
  - property values are integer sort ranks.
- Sort values: `numberF` (a double), `DefaultSort` of `stringF`, and `customSorterF` are abstracted into an integer rank per property.
  - A custom sorter that is not a total preorder is not modelled.
- Iteration order. The iteration order of `std::map` tasks and of the `std::set` of items is left open (chosen with `:|`).
  - Which items end up matching and known is proved to be the same for every task order.
  - The order of the matching list and the range start are `ApplyTasks` over the order taken, and do depend on it.
  - The order of the recomputed matching list is not modelled.
- Fixed-width integers: `int` is unbounded here, so an overflow of a count, the range start or a filter token is not modelled.
- The visible window's sanity assertion (`dcassert` at line 496) is not modelled.
- Filtered matching list. `ItemLists.TasksKeepFiltered` proves that a flush keeps the matching list filtered only under its conditions. The code breaks the invariant in three ways, which the model follows rather than excludes:
  - an add task for an item that is already known inserts it into the matching list a second time;
  - `updateList` loads the source's list unfiltered;
  - an item whose filter result changes without an update task keeps its old place.
- `findPropertyByName` and `toPropertyIdSet`: their code is not part of this model. The model assumes a first-match search by name (`FindPropertyByName`) and the set of all property indices (`AllPropertyIds`).

Notes on what the code does, which the model follows:

- Add.
  - The code inserts an item that is already among all items into the matching list again (`HandleAddItem`).
  - The code raises the start only when the insertion index is strictly before it (`InsertMatching`). An item sorted to the very start of a window at 0 therefore leaves the start at 0.
- Remove.
  - The code erases the item from all items only when it is in the matching list (`RemoveStep`).
  - The code lowers the start only when the start is positive and the removed index is after it (`RemoveMatching`).
- Update. An update that makes a listed item stop matching goes through handleRemoveItem (lines 676-679, then 653). This erases the item from all items too (`UpdateStep`). The total count drops, and clearing the filter later does not bring the item back.
- The window start is clamped against the number of all items, not of the matching items (`ClampStart`).
- `updateList` loads the source's list into the matching list without filtering it or sorting it. The flush sorts it afterwards because the list is marked changed.
- A flush with no sort property set drops the tasks it has taken, without applying them.
