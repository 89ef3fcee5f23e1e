/**
 * The `mapData` array handed to the chart: one record per entry of the plate
 * table, built by a `for…in` loop that pushes `{name, value, plate}`.
 */
module SeriesData {

  /** One pushed record, without its random `value`. */
  datatype SeriesItem = SeriesItem(name: string, plate: string)

  /**
   * Visits the table's keys one at a time, in an order the model leaves open, and
   * appends a record for each: every entry appears exactly once, with its own plate.
   */
  method BuildMapData(table: map<string, string>) returns (mapData: seq<SeriesItem>)
    ensures |mapData| == |table|
    ensures forall i :: 0 <= i < |mapData| ==> mapData[i].name in table && mapData[i].plate == table[mapData[i].name]
    ensures forall city :: city in table ==> exists i :: 0 <= i < |mapData| && mapData[i].name == city
    ensures forall i, j :: 0 <= i < j < |mapData| ==> mapData[i].name != mapData[j].name
  {
    mapData := [];
    var remaining := table.Keys;
    while remaining != {}
      invariant remaining <= table.Keys
      invariant |mapData| + |remaining| == |table|
      invariant forall i :: 0 <= i < |mapData| ==>
        mapData[i].name in table && mapData[i].name !in remaining && mapData[i].plate == table[mapData[i].name]
      invariant forall city :: city in table && city !in remaining ==> exists i :: 0 <= i < |mapData| && mapData[i].name == city
      invariant forall i, j :: 0 <= i < j < |mapData| ==> mapData[i].name != mapData[j].name
      decreases |remaining|
    {
      var city :| city in remaining;
      ghost var before := mapData;
      mapData := mapData + [SeriesItem(city, table[city])];
      assert forall i :: 0 <= i < |before| ==> mapData[i] == before[i];
      assert mapData[|before|].name == city;
      remaining := remaining - {city};
    }
  }
}
