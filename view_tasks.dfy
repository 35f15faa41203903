/** The queue of item changes a list view collects between two updates
 *  (ItemTasks): at most one task per item, plus the union of the properties
 *  named by the updates. The coalescing rule assumed for ItemTasks: a later
 *  add or remove replaces the kind of a queued task, a later update keeps
 *  it, and the changed-property sets are merged. */
module ViewTasks {
  import opened PropertyRegistry

  /** ADD_ITEM, REMOVE_ITEM, UPDATE_ITEM. */
  datatype TaskType = AddItem | RemoveItem | UpdateItem

  datatype Task = Task(kind: TaskType, updatedProperties: set<PropertyId>)

  datatype ItemTasks<T> = ItemTasks(tasks: map<T, Task>, updatedProperties: set<PropertyId>)

  function NoTasks<T>(): ItemTasks<T> {
    ItemTasks(map[], {})
  }

  /** A task for an item that already has one merged into it. */
  function Merge(queued: Task, later: Task): (r: Task)
    ensures later.kind != UpdateItem ==> r.kind == later.kind
    ensures later.kind == UpdateItem ==> r.kind == queued.kind
    ensures r.updatedProperties == queued.updatedProperties + later.updatedProperties
  {
    Task(if later.kind == UpdateItem then queued.kind else later.kind,
         queued.updatedProperties + later.updatedProperties)
  }

  /** Queue a task for `item`: the tasks of other items are untouched. */
  function Queue<T>(q: ItemTasks<T>, item: T, task: Task): (r: ItemTasks<T>)
    ensures r.tasks.Keys == q.tasks.Keys + {item}
    ensures forall y :: y in q.tasks && y != item ==> r.tasks[y] == q.tasks[y]
    ensures item !in q.tasks ==> r.tasks[item] == task
    ensures item in q.tasks ==> r.tasks[item] == Merge(q.tasks[item], task)
    ensures r.updatedProperties == q.updatedProperties + task.updatedProperties
  {
    ItemTasks(q.tasks[item := if item in q.tasks then Merge(q.tasks[item], task) else task],
              q.updatedProperties + task.updatedProperties)
  }

  /** An update queued after an add is still an add, carrying the union of
   *  the properties; a remove queued after anything is a remove. */
  lemma CoalescingKeepsNetEffect<T>(q: ItemTasks<T>, item: T, props: set<PropertyId>)
    ensures Queue(Queue(q, item, Task(AddItem, {})), item, Task(UpdateItem, props)).tasks[item].kind == AddItem
    ensures Queue(q, item, Task(RemoveItem, {})).tasks[item].kind == RemoveItem
    ensures props <= Queue(q, item, Task(UpdateItem, props)).tasks[item].updatedProperties
  {
  }

  /** onItemsUpdated: one update task per listed item, in list order. An
   *  update never changes the kind of a task already queued for the item. */
  function QueueUpdates<T>(q: ItemTasks<T>, items: seq<T>, props: set<PropertyId>): (r: ItemTasks<T>)
    ensures r.tasks.Keys == q.tasks.Keys + set x | x in items
    ensures forall y :: y in q.tasks && y !in items ==> r.tasks[y] == q.tasks[y]
    ensures forall x :: x in items ==> r.tasks[x].kind == (if x in q.tasks then q.tasks[x].kind else UpdateItem)
    ensures forall x :: x in items ==> props <= r.tasks[x].updatedProperties
    ensures r.updatedProperties == q.updatedProperties + (if |items| == 0 then {} else props)
    decreases |items|
  {
    if |items| == 0 then q
    else
      var prefix := items[..|items| - 1];
      var last := items[|items| - 1];
      assert forall x :: x in items ==> x in prefix || x == last;
      Queue(QueueUpdates(q, prefix, props), last, Task(UpdateItem, props))
  }
}
