/** The static description of the properties of a list view (the
 *  `PropertyItemHandler::properties` list): each property has a name and a
 *  sort method, and is identified by its index in the list. */
module PropertyRegistry {

  /** A property id: the index of the property in the view's property list. */
  type PropertyId = int

  /** How a property sorts: SORT_NONE, SORT_NUMERIC, SORT_TEXT or SORT_CUSTOM. */
  datatype SortMethod = SortNone | SortNumeric | SortText | SortCustom

  /** A declared property of a view. */
  datatype Property = Property(name: string, sortMethod: SortMethod)

  /** findPropertyByName: the id of the first property called `name`, or -1
   *  when the view declares no such property. */
  function FindPropertyByName(name: string, properties: seq<Property>): (r: int)
    ensures -1 <= r < |properties|
    ensures r == -1 <==> forall i :: 0 <= i < |properties| ==> properties[i].name != name
    ensures 0 <= r ==> properties[r].name == name
    ensures forall i :: 0 <= i < r ==> properties[i].name != name
    decreases |properties|
  {
    if |properties| == 0 then -1
    else if properties[0].name == name then 0
    else
      var r := FindPropertyByName(name, properties[1..]);
      if r < 0 then -1 else r + 1
  }

  /** toPropertyIdSet: the ids of every property of the view. */
  function AllPropertyIds(properties: seq<Property>): (r: set<PropertyId>)
    ensures forall p :: p in r <==> 0 <= p < |properties|
    decreases |properties|
  {
    if |properties| == 0 then {}
    else AllPropertyIds(properties[..|properties| - 1]) + {|properties| - 1}
  }
}
