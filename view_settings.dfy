/** The settings of a list view: the `IntCollector` that holds the requested
 *  sort property, sort direction, range start and maximum count together with
 *  a "changed" flag, and the validation of a settings request
 *  (`parseProperties`). */
module ViewSettings {
  import opened Options
  import opened PropertyRegistry

  /** IntCollector::ValueType: TYPE_SORT_PROPERTY, TYPE_SORT_ASCENDING,
   *  TYPE_RANGE_START and TYPE_MAX_COUNT; TYPE_LAST is their number. */
  const TypeLast: int := 4
  type ValueType = t: int | 0 <= t < TypeLast
  const SortProperty: ValueType := 0
  const SortAscending: ValueType := 1
  const RangeStart: ValueType := 2
  const MaxCount: ValueType := 3

  type ValueMap = map<ValueType, int>

  /** Reading a ValueMap with std::map::operator[]: a missing value reads as 0. */
  function Get(m: ValueMap, t: ValueType): int {
    if t in m then m[t] else 0
  }

  /** Every value unset (-1). */
  const Unset: ValueMap := map[SortProperty := -1, SortAscending := -1, RangeStart := -1, MaxCount := -1]

  class IntCollector {
    var values: ValueMap
    var changed: bool

    /** Every value type has a value. */
    ghost predicate Valid()
      reads this
    {
      forall t: ValueType :: t in values
    }

    constructor ()
      ensures Valid()
      ensures values == Unset && changed
    {
      values := map[];
      changed := true;
      new;
      Reset();
    }

    /** reset: every value back to -1; the changed flag is left as it is. */
    method Reset()
      modifies this`values
      ensures Valid()
      ensures values == Unset
    {
      for i := 0 to TypeLast
        invariant forall t: ValueType :: t < i ==> t in values && values[t] == -1
        invariant forall t: ValueType :: i <= t ==> (t in values <==> t in old(values))
      {
        values := values[i := -1];
      }
      assert values.Keys == Unset.Keys;
    }

    /** set(type, value): one value replaced, and the collector marked changed. */
    method Set(t: ValueType, v: int)
      requires Valid()
      modifies this
      ensures Valid()
      ensures changed && values == old(values)[t := v]
    {
      changed := true;
      values := values[t := v];
    }

    /** set(map): every value of `m` copied in, and the collector marked changed. */
    method SetAll(m: ValueMap)
      requires Valid()
      modifies this
      ensures Valid()
      ensures changed && values == old(values) + m
    {
      changed := true;
      var rest := m.Keys;
      while rest != {}
        invariant rest <= m.Keys && changed
        invariant values == old(values) + map t | t in m.Keys - rest :: m[t]
        decreases rest
      {
        var t :| t in rest;
        values := values[t := m[t]];
        rest := rest - {t};
      }
      assert (map t | t in m.Keys - rest :: m[t]) == m;
    }

    /** getAll: the current values; clears the changed flag. */
    method GetAll() returns (r: ValueMap)
      modifies this`changed
      ensures r == values && !changed
    {
      changed := false;
      r := values;
    }
  }

  /** The fields of a settings request; an absent field is None. */
  datatype SettingsRequest = SettingsRequest(
    rangeStart: Option<int>,
    maxCount: Option<int>,
    sortProperty: Option<string>,
    sortAscending: Option<bool>,
    paused: Option<bool>)

  /** Why `parseProperties` rejects a request. */
  datatype SettingsError = NegativeRangeStart | InvalidSortProperty

  /** The values a settings request asks for, collected as `parseProperties`
   *  does before it stores any of them: a negative range start or an unknown
   *  sort property rejects the whole request, the range start being checked
   *  first. The `paused` field carries no value. */
  function ParseSettings(req: SettingsRequest, properties: seq<Property>): (r: Result<ValueMap, SettingsError>)
    ensures r.Failure? <==>
              (req.rangeStart.Some? && req.rangeStart.value < 0)
              || (req.sortProperty.Some? && forall i :: 0 <= i < |properties| ==> properties[i].name != req.sortProperty.value)
    ensures r.Failure? && req.rangeStart.Some? && req.rangeStart.value < 0 ==> r.error == NegativeRangeStart
    ensures r.Failure? && !(req.rangeStart.Some? && req.rangeStart.value < 0) ==> r.error == InvalidSortProperty
    ensures r.Success? ==>
              && (RangeStart in r.value <==> req.rangeStart.Some?)
              && (MaxCount in r.value <==> req.maxCount.Some?)
              && (SortProperty in r.value <==> req.sortProperty.Some?)
              && (SortAscending in r.value <==> req.sortAscending.Some?)
    ensures r.Success? && RangeStart in r.value ==> r.value[RangeStart] == req.rangeStart.value >= 0
    ensures r.Success? && MaxCount in r.value ==> r.value[MaxCount] == req.maxCount.value
    ensures r.Success? && SortProperty in r.value ==>
              0 <= r.value[SortProperty] < |properties| && properties[r.value[SortProperty]].name == req.sortProperty.value
    ensures r.Success? && SortAscending in r.value ==> r.value[SortAscending] == (if req.sortAscending.value then 1 else 0)
  {
    if req.rangeStart.Some? && req.rangeStart.value < 0 then Failure(NegativeRangeStart)
    else
      var prop := if req.sortProperty.Some? then FindPropertyByName(req.sortProperty.value, properties) else 0;
      if prop == -1 then Failure(InvalidSortProperty)
      else
        var m0: ValueMap := map[];
        var m1: ValueMap := if req.rangeStart.Some? then m0[RangeStart := req.rangeStart.value] else m0;
        var m2: ValueMap := if req.maxCount.Some? then m1[MaxCount := req.maxCount.value] else m1;
        var m3: ValueMap := if req.sortProperty.Some? then m2[SortProperty := prop] else m2;
        Success(if req.sortAscending.Some? then m3[SortAscending := if req.sortAscending.value then 1 else 0] else m3)
  }
}
