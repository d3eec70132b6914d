/**
 One monitored endpoint: the `TrafficLight` record. Its fields are the url
 being polled, its fixed position in the registry, how many checks have
 completed, the status of the latest completed check, and the handle of its
 repeating timer.
 */
module Lights {

  datatype Option<T> = None | Some(value: T)

  /** `Unchecked` is the status field before any check has completed
      (undefined in the browser). `Ok` is the stored 200 and `Error` the
      stored "error". */
  datatype Status = Unchecked | Ok | Error

  datatype TrafficLight = TrafficLight(
    url: string,
    position: nat,
    timesChecked: nat,
    status: Status,
    interval: Option<nat>)

  /** A light that has just been built: nothing checked yet, no timer yet. */
  function NewLight(url: string, position: nat): (l: TrafficLight)
    ensures l.url == url && l.position == position
    ensures l.timesChecked == 0 && l.status == Unchecked
    ensures l.interval.None?
  {
    TrafficLight(url, position, 0, Unchecked, None)
  }

  /** The status a completed check stores: 200 on success, "error" otherwise. */
  function Outcome(ok: bool): (s: Status)
    ensures s != Unchecked
    ensures s == Ok <==> ok
  {
    if ok then Ok else Error
  }
}
