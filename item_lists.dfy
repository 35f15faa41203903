/** The item lists a list view changes while it applies its queued tasks
 *  (handleAddItem, handleRemoveItem, handleUpdateItem, handleTasks), as
 *  functions on values: the matching items in sort order, the set of all
 *  items, and the range start that moves with insertions and removals. */
module ItemLists {
  import opened PropertyRegistry
  import opened ItemOrder
  import opened Filters
  import opened ViewTasks

  /** What the view reads of the items: the sort rank of an item's property
   *  value and whether an item passes a list of filter matchers. */
  datatype ItemState<!T> = ItemState(value: (T, PropertyId) -> int, matches: (T, seq<Filter>) -> bool)

  /** handleAddItem on the matching list: the item goes in at the upper bound
   *  of its sort key, and the range start moves up by one when the item lands
   *  before it, so that the first visible item stays first. */
  function InsertMatching<T>(s: seq<T>, item: T, key: T -> int, rangeStart: int): (r: (seq<T>, int))
    ensures |r.0| == |s| + 1 && multiset(r.0) == multiset(s) + multiset{item}
    ensures r.0[UpperBound(s, item, key)] == item
    ensures forall j :: 0 <= j < |s| ==> r.0[if j < UpperBound(s, item, key) then j else j + 1] == s[j]
    ensures r.1 == rangeStart || r.1 == rangeStart + 1
    ensures rangeStart <= 0 ==> r.1 == rangeStart
    ensures r.1 == rangeStart + 1 <==> UpperBound(s, item, key) < rangeStart
    ensures 0 <= rangeStart < |s| && UpperBound(s, item, key) != rangeStart ==> r.0[r.1] == s[rangeStart]
    ensures 0 <= rangeStart < |s| && UpperBound(s, item, key) == rangeStart ==> r.0[r.1] == item
  {
    var pos := UpperBound(s, item, key);
    (InsertAt(s, pos, item), if pos < rangeStart then rangeStart + 1 else rangeStart)
  }

  /** Inserting at the upper bound keeps a sorted matching list sorted. */
  lemma InsertMatchingKeepsSorted<T>(s: seq<T>, item: T, key: T -> int, rangeStart: int)
    requires Sorted(s, key)
    ensures Sorted(InsertMatching(s, item, key, rangeStart).0, key)
  {
    InsertAtUpperBound(s, item, key);
  }

  /** handleRemoveItem on the matching list: the first occurrence of the item
   *  is erased; an absent item changes nothing. The range start goes down by
   *  one when it is positive and the item was AFTER it; an item before the
   *  start leaves the start as it is. So the window moves forward by one item
   *  when an item before it goes, and back by one when an item after it
   *  goes. */
  function RemoveMatching<T(==)>(s: seq<T>, item: T, rangeStart: int): (r: (seq<T>, int))
    ensures item !in s ==> r == (s, rangeStart)
    ensures item in s ==> |r.0| == |s| - 1 && multiset(r.0) == multiset(s) - multiset{item}
    ensures item in s ==> forall j :: 0 <= j < |r.0| ==> r.0[j] == s[if j < IndexOf(s, item) then j else j + 1]
    ensures r.1 == rangeStart || (r.1 == rangeStart - 1 && rangeStart > 0)
    ensures r.1 == rangeStart - 1 <==> item in s && 0 < rangeStart < IndexOf(s, item)
    ensures 0 <= IndexOf(s, item) < rangeStart && rangeStart + 1 < |s| ==> r.0[r.1] == s[rangeStart + 1]
    ensures 0 < rangeStart < IndexOf(s, item) ==> r.0[r.1] == s[rangeStart - 1]
  {
    var pos := IndexOf(s, item);
    if pos < 0 then (s, rangeStart)
    else (RemoveAt(s, pos), if rangeStart > 0 && pos > rangeStart then rangeStart - 1 else rangeStart)
  }

  /** Erasing an item keeps a sorted matching list sorted. */
  lemma RemoveMatchingKeepsSorted<T>(s: seq<T>, item: T, key: T -> int, rangeStart: int)
    requires Sorted(s, key)
    ensures Sorted(RemoveMatching(s, item, rangeStart).0, key)
  {
    var pos := IndexOf(s, item);
    if pos >= 0 {
      RemoveAtSorted(s, pos, key);
    }
  }

  /** The lists a task changes: the matching items, all items, and the range
   *  start being adjusted. */
  datatype Lists<T> = Lists(matching: seq<T>, all: set<T>, start: int)

  /** handleAddItem: the item joins all items and, when it matches, the
   *  matching list. */
  function AddStep<T>(l: Lists<T>, item: T, key: T -> int, matches: bool): Lists<T> {
    if matches then
      var ins := InsertMatching(l.matching, item, key, l.start);
      Lists(ins.0, l.all + {item}, ins.1)
    else Lists(l.matching, l.all + {item}, l.start)
  }

  /** handleRemoveItem: only an item in the matching list is removed, from
   *  both lists. */
  function RemoveStep<T(==)>(l: Lists<T>, item: T): Lists<T> {
    if item in l.matching then
      var rem := RemoveMatching(l.matching, item, l.start);
      Lists(rem.0, l.all - {item}, rem.1)
    else l
  }

  /** handleUpdateItem: an unknown item is left alone; an item that stopped
   *  matching is removed and one that started matching is added. */
  function UpdateStep<T(==)>(l: Lists<T>, item: T, key: T -> int, matches: bool): Lists<T> {
    if item !in l.matching && item !in l.all then l
    else if !matches then RemoveStep(l, item)
    else if item !in l.matching then AddStep(l, item, key, true)
    else l
  }

  /** The switch of handleTasks: one task applied. */
  function TaskStep<T(==)>(l: Lists<T>, item: T, kind: TaskType, key: T -> int, matches: bool): Lists<T> {
    match kind
    case AddItem => AddStep(l, item, key, matches)
    case RemoveItem => RemoveStep(l, item)
    case UpdateItem => UpdateStep(l, item, key, matches)
  }

  /** The loop of handleTasks: the tasks applied in the order `order`. */
  function ApplyTasks<T(==)>(l: Lists<T>, order: seq<T>, tasks: map<T, Task>, key: T -> int,
                             state: ItemState<T>, matchers: seq<Filter>): Lists<T>
    requires forall x :: x in order ==> x in tasks
    decreases |order|
  {
    if |order| == 0 then l
    else
      var x := order[|order| - 1];
      TaskStep(ApplyTasks(l, order[..|order| - 1], tasks, key, state, matchers), x, tasks[x].kind, key, state.matches(x, matchers))
  }

  /** How often an item is in the matching list and whether it is among all
   *  items. */
  datatype Membership = Membership(count: nat, inAll: bool)

  /** The membership of an item after one task for it, given whether it
   *  passes the filters: an add puts it among all items and, when it matches,
   *  into the matching list once more; a remove takes out one occurrence and
   *  the item itself, unless it is not in the matching list; an update of a
   *  known item that stopped matching removes it, one that started matching
   *  adds it. */
  function ApplyTask(kind: TaskType, m: Membership, matches: bool): Membership {
    match kind
    case AddItem => Membership(if matches then m.count + 1 else m.count, true)
    case RemoveItem => if m.count > 0 then Membership(m.count - 1, false) else m
    case UpdateItem =>
      if m.count == 0 && !m.inAll then m
      else if !matches then (if m.count > 0 then Membership(m.count - 1, false) else m)
      else if m.count == 0 then Membership(1, true)
      else m
  }

  function MembershipOf<T>(l: Lists<T>, x: T): Membership {
    Membership(multiset(l.matching)[x], x in l.all)
  }

  /** An add changes the membership of its own item only, as `ApplyTask`
   *  says. */
  lemma AddStepMembership<T>(l: Lists<T>, item: T, key: T -> int, matches: bool)
    ensures MembershipOf(AddStep(l, item, key, matches), item) == ApplyTask(AddItem, MembershipOf(l, item), matches)
    ensures forall y :: y != item ==> MembershipOf(AddStep(l, item, key, matches), y) == MembershipOf(l, y)
  {
  }

  /** A remove changes the membership of its own item only, as `ApplyTask`
   *  says. */
  lemma RemoveStepMembership<T>(l: Lists<T>, item: T, matches: bool)
    ensures MembershipOf(RemoveStep(l, item), item) == ApplyTask(RemoveItem, MembershipOf(l, item), matches)
    ensures forall y :: y != item ==> MembershipOf(RemoveStep(l, item), y) == MembershipOf(l, y)
  {
  }

  /** An update changes the membership of its own item only, as `ApplyTask`
   *  says. */
  lemma UpdateStepMembership<T>(l: Lists<T>, item: T, key: T -> int, matches: bool)
    ensures MembershipOf(UpdateStep(l, item, key, matches), item) == ApplyTask(UpdateItem, MembershipOf(l, item), matches)
    ensures forall y :: y != item ==> MembershipOf(UpdateStep(l, item, key, matches), y) == MembershipOf(l, y)
  {
    if item in l.matching || item in l.all {
      if !matches {
        RemoveStepMembership(l, item, matches);
      } else if item !in l.matching {
        AddStepMembership(l, item, key, true);
      }
    }
  }

  /** A task changes the membership of its own item only, as `ApplyTask`
   *  says. */
  lemma TaskStepMembership<T>(l: Lists<T>, item: T, kind: TaskType, key: T -> int, matches: bool)
    ensures MembershipOf(TaskStep(l, item, kind, key, matches), item) == ApplyTask(kind, MembershipOf(l, item), matches)
    ensures forall y :: y != item ==> MembershipOf(TaskStep(l, item, kind, key, matches), y) == MembershipOf(l, y)
  {
    match kind
    case AddItem => AddStepMembership(l, item, key, matches);
    case RemoveItem => RemoveStepMembership(l, item, matches);
    case UpdateItem => UpdateStepMembership(l, item, key, matches);
  }

  /** A task keeps a sorted matching list sorted and the range start's sign. */
  lemma TaskStepKeeps<T>(l: Lists<T>, item: T, kind: TaskType, key: T -> int, matches: bool)
    ensures Sorted(l.matching, key) ==> Sorted(TaskStep(l, item, kind, key, matches).matching, key)
    ensures l.start < 0 ==> TaskStep(l, item, kind, key, matches).start == l.start
    ensures l.start >= 0 ==> TaskStep(l, item, kind, key, matches).start >= 0
  {
    if Sorted(l.matching, key) {
      InsertMatchingKeepsSorted(l.matching, item, key, l.start);
      RemoveMatchingKeepsSorted(l.matching, item, key, l.start);
    }
  }

  /** Whatever the order of distinct tasks, every item ends as its own task
   *  says, and items without a task keep their membership. */
  lemma {:induction false} ApplyTasksMembership<T>(l: Lists<T>, order: seq<T>, tasks: map<T, Task>, key: T -> int,
                                                   state: ItemState<T>, matchers: seq<Filter>)
    requires forall x :: x in order ==> x in tasks
    requires forall i, j :: 0 <= i < j < |order| ==> order[i] != order[j]
    ensures forall x :: MembershipOf(ApplyTasks(l, order, tasks, key, state, matchers), x)
                        == if x in order then ApplyTask(tasks[x].kind, MembershipOf(l, x), state.matches(x, matchers))
                           else MembershipOf(l, x)
    decreases |order|
  {
    if |order| > 0 {
      var prefix := order[..|order| - 1];
      var x := order[|order| - 1];
      ApplyTasksMembership(l, prefix, tasks, key, state, matchers);
      var before := ApplyTasks(l, prefix, tasks, key, state, matchers);
      TaskStepMembership(before, x, tasks[x].kind, key, state.matches(x, matchers));
      assert x !in prefix;
      assert forall y :: y in order <==> y in prefix || y == x;
    }
  }

  /** Applying tasks keeps a sorted matching list sorted and the range
   *  start's sign. */
  lemma {:induction false} ApplyTasksKeeps<T>(l: Lists<T>, order: seq<T>, tasks: map<T, Task>, key: T -> int,
                                              state: ItemState<T>, matchers: seq<Filter>)
    requires forall x :: x in order ==> x in tasks
    ensures Sorted(l.matching, key) ==> Sorted(ApplyTasks(l, order, tasks, key, state, matchers).matching, key)
    ensures l.start < 0 ==> ApplyTasks(l, order, tasks, key, state, matchers).start == l.start
    ensures l.start >= 0 ==> ApplyTasks(l, order, tasks, key, state, matchers).start >= 0
    decreases |order|
  {
    if |order| > 0 {
      var prefix := order[..|order| - 1];
      var x := order[|order| - 1];
      ApplyTasksKeeps(l, prefix, tasks, key, state, matchers);
      TaskStepKeeps(ApplyTasks(l, prefix, tasks, key, state, matchers), x, tasks[x].kind, key, state.matches(x, matchers));
    }
  }

  /** Applying tasks leaves the membership of an item without a task as it
   *  was. */
  lemma {:induction false} ApplyTasksLeaves<T>(l: Lists<T>, order: seq<T>, tasks: map<T, Task>, key: T -> int,
                                               state: ItemState<T>, matchers: seq<Filter>, x: T)
    requires forall y :: y in order ==> y in tasks
    requires x !in order
    ensures MembershipOf(ApplyTasks(l, order, tasks, key, state, matchers), x) == MembershipOf(l, x)
    decreases |order|
  {
    if |order| > 0 {
      var prefix := order[..|order| - 1];
      var last := order[|order| - 1];
      ApplyTasksLeaves(l, prefix, tasks, key, state, matchers, x);
      TaskStepMembership(ApplyTasks(l, prefix, tasks, key, state, matchers), last, tasks[last].kind, key, state.matches(last, matchers));
    }
  }

  /** Each item's membership in `matching` and `all` is what its own task
   *  makes of its membership in `oldMatching` and `oldAll`; an item without
   *  a task keeps its membership. */
  ghost predicate TasksApplied<T(!new)>(matching: seq<T>, all: set<T>, oldMatching: seq<T>, oldAll: set<T>,
                                  tasks: map<T, Task>, state: ItemState<T>, matchers: seq<Filter>)
  {
    forall x :: Membership(multiset(matching)[x], x in all)
                == if x in tasks
                   then ApplyTask(tasks[x].kind, Membership(multiset(oldMatching)[x], x in oldAll), state.matches(x, matchers))
                   else Membership(multiset(oldMatching)[x], x in oldAll)
  }

  /** The items a flush reports as updated: those with an update task that
   *  were in the matching list before the tasks and still pass the filters,
   *  each with the properties its update named. */
  ghost function UpdatedEntries<T(!new)>(tasks: map<T, Task>, oldMatching: seq<T>, state: ItemState<T>,
                                         matchers: seq<Filter>): map<T, set<PropertyId>>
  {
    map x | x in tasks && tasks[x].kind == UpdateItem && x in oldMatching && state.matches(x, matchers)
          :: tasks[x].updatedProperties
  }

  /** A map holding exactly the updated items, each with its update's
   *  properties, is `UpdatedEntries`. */
  lemma UpdatedEntriesExactly<T(!new)>(updated: map<T, set<PropertyId>>, tasks: map<T, Task>, oldMatching: seq<T>,
                                       state: ItemState<T>, matchers: seq<Filter>)
    requires forall x :: x in updated <==>
                         x in tasks && tasks[x].kind == UpdateItem && x in oldMatching && state.matches(x, matchers)
    requires forall x :: x in updated ==> updated[x] == tasks[x].updatedProperties
    ensures updated == UpdatedEntries(tasks, oldMatching, state, matchers)
  {
    assert updated.Keys == UpdatedEntries(tasks, oldMatching, state, matchers).Keys;
  }

  /** The updated items depend only on the multiset of the matching list,
   *  so sorting it before the tasks does not change them. */
  lemma UpdatedEntriesPermuted<T(!new)>(tasks: map<T, Task>, oldMatching: seq<T>, sorted: seq<T>,
                                        state: ItemState<T>, matchers: seq<Filter>)
    requires multiset(sorted) == multiset(oldMatching)
    ensures UpdatedEntries(tasks, sorted, state, matchers) == UpdatedEntries(tasks, oldMatching, state, matchers)
  {
    forall x
      ensures x in sorted <==> x in oldMatching
    {
      assert x in sorted <==> x in multiset(sorted);
      assert x in oldMatching <==> x in multiset(oldMatching);
    }
    assert UpdatedEntries(tasks, sorted, state, matchers).Keys == UpdatedEntries(tasks, oldMatching, state, matchers).Keys;
  }

  /** Applying every task once, in any order, gives each item the membership
   *  its own task says. */
  lemma ApplyAllTasks<T(!new)>(l: Lists<T>, order: seq<T>, tasks: map<T, Task>, key: T -> int,
                         state: ItemState<T>, matchers: seq<Filter>)
    requires forall x :: x in order <==> x in tasks
    requires forall i, j :: 0 <= i < j < |order| ==> order[i] != order[j]
    ensures TasksApplied(ApplyTasks(l, order, tasks, key, state, matchers).matching, ApplyTasks(l, order, tasks, key, state, matchers).all,
                         l.matching, l.all, tasks, state, matchers)
  {
    ApplyTasksMembership(l, order, tasks, key, state, matchers);
  }

  /** Membership counts occurrences only, so a reordered starting list gives
   *  the same result. */
  lemma TasksAppliedPermuted<T(!new)>(matching: seq<T>, all: set<T>, mid: seq<T>, oldMatching: seq<T>, oldAll: set<T>,
                                tasks: map<T, Task>, state: ItemState<T>, matchers: seq<Filter>)
    requires TasksApplied(matching, all, mid, oldAll, tasks, state, matchers)
    requires multiset(mid) == multiset(oldMatching)
    ensures TasksApplied(matching, all, oldMatching, oldAll, tasks, state, matchers)
  {
  }

  /** The matching list holds exactly the items of `all` that pass the
   *  matchers, each once. */
  ghost predicate Filtered<T(!new)>(matching: seq<T>, all: set<T>, state: ItemState<T>, matchers: seq<Filter>) {
    forall x :: multiset(matching)[x] == if x in all && state.matches(x, matchers) then 1 else 0
  }

  /** A list without repeated items holds each of its items once. */
  lemma {:induction false} DistinctCounts<T>(s: seq<T>)
    requires forall i, j :: 0 <= i < j < |s| ==> s[i] != s[j]
    ensures forall x :: multiset(s)[x] == if x in s then 1 else 0
    decreases |s|
  {
    if |s| > 0 {
      var prefix := s[..|s| - 1];
      DistinctCounts(prefix);
      assert s == prefix + [s[|s| - 1]];
      assert s[|s| - 1] !in prefix;
    }
  }

  /** A flush keeps the matching list filtered when no add task names an
   *  item that is already known, and every item whose filter result changed
   *  since `before` has an add or update task. Each task then leaves its
   *  item matching exactly when it passes the filters. */
  lemma TasksKeepFiltered<T(!new)>(matching: seq<T>, all: set<T>, oldMatching: seq<T>, oldAll: set<T>,
                                   tasks: map<T, Task>, before: ItemState<T>, state: ItemState<T>, matchers: seq<Filter>)
    requires Filtered(oldMatching, oldAll, before, matchers)
    requires TasksApplied(matching, all, oldMatching, oldAll, tasks, state, matchers)
    requires forall x :: x in tasks && tasks[x].kind == AddItem ==> x !in oldAll
    requires forall x :: x !in tasks || tasks[x].kind == RemoveItem ==> before.matches(x, matchers) == state.matches(x, matchers)
    ensures Filtered(matching, all, state, matchers)
  {
    forall x
      ensures multiset(matching)[x] == if x in all && state.matches(x, matchers) then 1 else 0
    {
      assert Membership(multiset(matching)[x], x in all)
             == if x in tasks
                then ApplyTask(tasks[x].kind, Membership(multiset(oldMatching)[x], x in oldAll), state.matches(x, matchers))
                else Membership(multiset(oldMatching)[x], x in oldAll);
      assert multiset(oldMatching)[x] == if x in oldAll && before.matches(x, matchers) then 1 else 0;
    }
  }

  /** `order` lists every task's item once: an order in which a loop over
   *  the task map can visit them. */
  ghost predicate IsOrderOf<T(!new)>(order: seq<T>, tasks: map<T, Task>) {
    && (forall x :: x in order <==> x in tasks)
    && (forall i, j :: 0 <= i < j < |order| ==> order[i] != order[j])
  }
}
