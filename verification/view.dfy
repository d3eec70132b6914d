/**
 The display: an ordered list of wrapper slots, one per position, each
 holding the item currently shown for that light. The first render of a
 light appends a wrapper; later renders rebuild only the item inside the
 existing wrapper, so rows never move.
 */
module View {
  import opened Lights
  import opened Truncation

  /** What a row shows: the light's status and its (shortened) url. */
  datatype Item = Item(status: Status, url: string)

  /** A wrapper keyed by position, holding the current item. */
  datatype Slot = Slot(position: nat, item: Item)

  type Display = seq<Slot>

  /** The positions of the wrappers, in display order. */
  function Positions(d: Display): (ps: seq<nat>)
    ensures |ps| == |d|
    ensures forall k :: 0 <= k < |d| ==> ps[k] == d[k].position
  {
    seq(|d|, k requires 0 <= k < |d| => d[k].position)
  }

  /** Element ids are unique in a document: no two wrappers share a position. */
  ghost predicate DistinctPositions(d: Display) {
    forall j, k :: 0 <= j < k < |d| ==> d[j].position != d[k].position
  }

  /** The item a render builds: status read live from the registry, url shortened. */
  function ItemFor(lights: seq<TrafficLight>, position: nat, url: string): (it: Item)
    requires position < |lights|
    ensures it.status == lights[position].status
    ensures it.url == Truncate(url) && |it.url| <= MaxShown
  {
    Item(lights[position].status, Truncate(url))
  }

  /** Rebuilds the item inside the wrapper for `position`, in place. */
  function ReplaceItem(d: Display, position: nat, it: Item): (r: Display)
    ensures Positions(r) == Positions(d)
    ensures forall k :: 0 <= k < |d| && d[k].position == position ==> r[k].item == it
    ensures forall k :: 0 <= k < |d| && d[k].position != position ==> r[k] == d[k]
  {
    seq(|d|, k requires 0 <= k < |d| => if d[k].position == position then Slot(position, it) else d[k])
  }

  /** Renders light `position` after a completed check that saw the counter
      `timesChecked` and the url `url`. The status is looked up in `lights`,
      not passed in. */
  function Render(d: Display, lights: seq<TrafficLight>, position: nat, timesChecked: nat, url: string): (r: Display)
    requires position < |lights|
    requires DistinctPositions(d)
    requires timesChecked == 0 ==> position !in Positions(d)
    ensures DistinctPositions(r)
    ensures timesChecked == 0 ==> |r| == |d| + 1 && r[..|d|] == d && r[|d|].position == position
    ensures timesChecked == 0 ==> Positions(r) == Positions(d) + [position]
    ensures timesChecked > 0 ==> Positions(r) == Positions(d)
    ensures timesChecked > 0 ==> forall k :: 0 <= k < |d| && d[k].position != position ==> r[k] == d[k]
    ensures forall k :: 0 <= k < |r| && r[k].position == position ==>
              r[k].item.status == lights[position].status && r[k].item.url == Truncate(url)
    ensures position in Positions(r) <==> timesChecked == 0 || position in Positions(d)
  {
    var it := ItemFor(lights, position, url);
    if timesChecked == 0 then
      var r := d + [Slot(position, it)];
      assert Positions(r) == Positions(d) + [position];
      r
    else
      ReplaceItem(d, position, it)
  }

  /** However many update renders follow, the wrappers keep their order. */
  lemma {:induction false} UpdatesKeepOrder(d: Display, lights: seq<TrafficLight>, updates: seq<(nat, string)>)
    requires DistinctPositions(d)
    requires forall i :: 0 <= i < |updates| ==> updates[i].0 < |lights|
    ensures Positions(RenderUpdates(d, lights, updates)) == Positions(d)
    decreases |updates|
  {
    if |updates| > 0 {
      var d1 := Render(d, lights, updates[0].0, 1, updates[0].1);
      UpdatesKeepOrder(d1, lights, updates[1..]);
    }
  }

  /** A series of renders for lights already shown (counter positive). */
  function RenderUpdates(d: Display, lights: seq<TrafficLight>, updates: seq<(nat, string)>): Display
    requires DistinctPositions(d)
    requires forall i :: 0 <= i < |updates| ==> updates[i].0 < |lights|
    decreases |updates|
  {
    if |updates| == 0 then d
    else RenderUpdates(Render(d, lights, updates[0].0, 1, updates[0].1), lights, updates[1..])
  }
}
