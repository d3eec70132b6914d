/**
 The registry of traffic lights: an append-only sequence in which every
 light sits at the index given by its own position.
 */
module Registry {
  import opened Lights

  ghost predicate PositionsAreIndices(lights: seq<TrafficLight>) {
    forall i :: 0 <= i < |lights| ==> lights[i].position == i
  }

  /** Appends a new light for `url`, numbered by the registry's length. */
  function Append(lights: seq<TrafficLight>, url: string): (r: seq<TrafficLight>)
    ensures |r| == |lights| + 1
    ensures r[..|lights|] == lights
    ensures r[|lights|].url == url && r[|lights|].position == |lights|
    ensures r[|lights|].timesChecked == 0 && r[|lights|].status == Unchecked
    ensures PositionsAreIndices(lights) ==> PositionsAreIndices(r)
  {
    lights + [NewLight(url, |lights|)]
  }
}
