/**
 The whole monitor: the registry of lights, the active repeating timers,
 the checks that have been requested and not yet answered, and the
 display. Every operation of the page is a pure transition on this state.

 A timer is a handle mapped to the position of the light whose check it
 repeats; handles are drawn fresh from a counter, as `setInterval` does.
 A requested check is the light's position added to `inFlight`; the
 network later answers it with a completion event.
 */
module Monitor {
  import opened Lights
  import opened Registry
  import opened View
  import opened Truncation

  datatype State = State(
    lights: seq<TrafficLight>,
    timers: map<nat, nat>,
    nextHandle: nat,
    inFlight: multiset<nat>,
    display: Display)

  /** The page as loaded: no lights, no timers, an empty list. */
  const Init: State := State([], map[], 0, multiset{}, [])

  // ---------------------------------------------------------------------
  // The invariant

  /** Light `p` holds a handle that is active and runs light `p`'s check. */
  ghost predicate OwnsTimer(lights: seq<TrafficLight>, timers: map<nat, nat>, p: nat)
    requires p < |lights|
  {
    && lights[p].interval.Some?
    && lights[p].interval.value in timers
    && timers[lights[p].interval.value] == p
  }

  /** Every light has its stored timer running, and every running timer is
      the one its light has stored, so no light has a second one. */
  ghost predicate TimersWellFormed(lights: seq<TrafficLight>, timers: map<nat, nat>, nextHandle: nat) {
    && (forall p :: 0 <= p < |lights| ==> OwnsTimer(lights, timers, p))
    && (forall h :: h in timers ==>
          && h < nextHandle
          && timers[h] < |lights|
          && lights[timers[h]].interval == Some(h))
  }

  /** A light is unchecked exactly until its first check completes. */
  ghost predicate StatusMatchesCounter(lights: seq<TrafficLight>) {
    forall i :: 0 <= i < |lights| ==>
      (lights[i].timesChecked == 0 <==> lights[i].status == Unchecked)
  }

  /** The display has one wrapper per light that has been checked at least
      once, and each shows that light's current status. */
  ghost predicate DisplayMatchesLights(lights: seq<TrafficLight>, display: Display) {
    && DistinctPositions(display)
    && (forall k :: 0 <= k < |display| ==>
          && display[k].position < |lights|
          && display[k].item.status == lights[display[k].position].status)
    && (forall i :: 0 <= i < |lights| ==>
          (lights[i].timesChecked > 0 <==> i in Positions(display)))
  }

  /** Only existing lights have checks outstanding. */
  ghost predicate RequestsKnown(inFlight: multiset<nat>, count: nat) {
    forall p :: p in inFlight ==> p < count
  }

  ghost predicate Valid(s: State) {
    && PositionsAreIndices(s.lights)
    && TimersWellFormed(s.lights, s.timers, s.nextHandle)
    && RequestsKnown(s.inFlight, |s.lights|)
    && StatusMatchesCounter(s.lights)
    && DisplayMatchesLights(s.lights, s.display)
  }

  lemma InitValid()
    ensures Valid(Init)
  {
  }

  /** Under the invariant, the live timers of light `p` are exactly its stored handle. */
  lemma AtMostOneInterval(s: State, p: nat, h: nat)
    requires Valid(s) && p < |s.lights|
    ensures h in s.timers && s.timers[h] == p <==> s.lights[p].interval == Some(h)
  {
    assert OwnsTimer(s.lights, s.timers, p);
  }

  /** Timers only care about the lights' stored handles. */
  lemma TimersFrame(l1: seq<TrafficLight>, l2: seq<TrafficLight>, timers: map<nat, nat>, nextHandle: nat)
    requires TimersWellFormed(l1, timers, nextHandle)
    requires |l1| == |l2|
    requires forall i :: 0 <= i < |l1| ==> l2[i].interval == l1[i].interval
    ensures TimersWellFormed(l2, timers, nextHandle)
  {
    forall q | 0 <= q < |l2|
      ensures OwnsTimer(l2, timers, q)
    {
      assert OwnsTimer(l1, timers, q);
    }
  }

  // ---------------------------------------------------------------------
  // Timers and checks

  /** `checkURL`: a request for light `p` is now outstanding. */
  function CheckURL(s: State, p: nat): (r: State)
    ensures r.inFlight == s.inFlight + multiset{p}
    ensures r.lights == s.lights && r.timers == s.timers && r.nextHandle == s.nextHandle
    ensures r.display == s.display
  {
    s.(inFlight := s.inFlight + multiset{p})
  }

  /** `startInterval`: one immediate check, then a fresh repeating timer
      whose handle light `p` stores. */
  function StartInterval(s: State, p: nat): (r: State)
    requires p < |s.lights|
    ensures r.inFlight == s.inFlight + multiset{p}
    ensures r.timers.Keys == s.timers.Keys + {s.nextHandle}
    ensures r.timers[s.nextHandle] == p
    ensures forall h :: h in s.timers && h != s.nextHandle ==> r.timers[h] == s.timers[h]
    ensures r.nextHandle == s.nextHandle + 1
    ensures |r.lights| == |s.lights|
    ensures r.lights[p] == s.lights[p].(interval := Some(s.nextHandle))
    ensures forall i :: 0 <= i < |s.lights| && i != p ==> r.lights[i] == s.lights[i]
    ensures r.display == s.display
  {
    var checked := CheckURL(s, p);
    var h := checked.nextHandle;
    checked.(
      timers := checked.timers[h := p],
      nextHandle := h + 1,
      lights := checked.lights[p := checked.lights[p].(interval := Some(h))])
  }

  /** A tick of timer `h`: the owning light's check is requested again.
      A cleared handle never fires. */
  function Tick(s: State, h: nat): (r: State)
    ensures h !in s.timers ==> r == s
    ensures h in s.timers ==> r.inFlight == s.inFlight + multiset{s.timers[h]}
    ensures r.lights == s.lights && r.timers == s.timers && r.nextHandle == s.nextHandle
    ensures r.display == s.display
  {
    if h in s.timers then CheckURL(s, s.timers[h]) else s
  }

  lemma TickPreservesValid(s: State, h: nat)
    requires Valid(s)
    ensures Valid(Tick(s, h))
  {
  }

  // ---------------------------------------------------------------------
  // Adding a light

  /** `trafficLightList.addTrafficLight`: append a light numbered by the
      registry's length and start its polling. */
  function AddTrafficLight(s: State, url: string): (r: State)
    ensures |r.lights| == |s.lights| + 1
    ensures forall i :: 0 <= i < |s.lights| ==> r.lights[i] == s.lights[i]
    ensures r.lights[|s.lights|].url == url
    ensures r.lights[|s.lights|].position == |s.lights|
    ensures r.lights[|s.lights|].timesChecked == 0
    ensures r.lights[|s.lights|].status == Unchecked
    ensures r.lights[|s.lights|].interval == Some(s.nextHandle)
    ensures r.timers.Keys == s.timers.Keys + {s.nextHandle}
    ensures r.timers[s.nextHandle] == |s.lights|
    ensures forall h :: h in s.timers && h != s.nextHandle ==> r.timers[h] == s.timers[h]
    ensures r.nextHandle == s.nextHandle + 1
    ensures r.inFlight == s.inFlight + multiset{|s.lights|}
    ensures r.display == s.display
  {
    StartInterval(s.(lights := Append(s.lights, url)), |s.lights|)
  }

  lemma AddTrafficLightPreservesValid(s: State, url: string)
    requires Valid(s)
    ensures Valid(AddTrafficLight(s, url))
  {
    var r := AddTrafficLight(s, url);
    var p := |s.lights|;
    forall q | 0 <= q < |r.lights|
      ensures OwnsTimer(r.lights, r.timers, q)
    {
      if q < p {
        assert OwnsTimer(s.lights, s.timers, q);
      }
    }
    forall i | 0 <= i < |r.lights|
      ensures r.lights[i].timesChecked > 0 <==> i in Positions(r.display)
    {
      if i == p {
        assert forall k :: 0 <= k < |s.display| ==> Positions(s.display)[k] != p;
      }
    }
  }

  // ---------------------------------------------------------------------
  // Changing a light's url

  /** `TrafficLight.updateURL`: replace the url, clear the stored timer and
      start polling afresh. The counter is not reset. */
  function UpdateLightURL(s: State, p: nat, url: string): (r: State)
    requires p < |s.lights|
    ensures |r.lights| == |s.lights|
    ensures r.lights[p].url == url
    ensures r.lights[p].position == s.lights[p].position
    ensures r.lights[p].timesChecked == s.lights[p].timesChecked
    ensures r.lights[p].status == s.lights[p].status
    ensures r.lights[p].interval == Some(s.nextHandle)
    ensures forall i :: 0 <= i < |s.lights| && i != p ==> r.lights[i] == s.lights[i]
    ensures s.lights[p].interval.Some? && s.lights[p].interval.value != s.nextHandle ==>
              s.lights[p].interval.value !in r.timers
    ensures s.nextHandle in r.timers && r.timers[s.nextHandle] == p
    ensures forall h :: h in r.timers && h != s.nextHandle ==> h in s.timers && r.timers[h] == s.timers[h]
    ensures r.nextHandle == s.nextHandle + 1
    ensures r.inFlight == s.inFlight + multiset{p}
    ensures r.display == s.display
  {
    var l := s.lights[p];
    var timers := match l.interval
      case Some(h) => s.timers - {h}
      case None => s.timers;
    StartInterval(s.(lights := s.lights[p := l.(url := url)], timers := timers), p)
  }

  lemma UpdateLightURLPreservesValid(s: State, p: nat, url: string)
    requires Valid(s) && p < |s.lights|
    ensures Valid(UpdateLightURL(s, p, url))
  {
    var r := UpdateLightURL(s, p, url);
    assert OwnsTimer(s.lights, s.timers, p);
    forall q | 0 <= q < |r.lights|
      ensures OwnsTimer(r.lights, r.timers, q)
    {
      if q != p {
        assert OwnsTimer(s.lights, s.timers, q);
      }
    }
    assert TimersWellFormed(r.lights, r.timers, r.nextHandle);
    assert DisplayMatchesLights(r.lights, r.display);
  }

  /** Each light keeps at most one live timer through an url change: the old
      handle is gone and the new one is the only handle that runs light `p`. */
  lemma UpdateLightURLLeavesOneTimer(s: State, p: nat, url: string, stale: nat, h: nat)
    requires Valid(s) && p < |s.lights| && s.lights[p].interval == Some(stale)
    ensures var r := UpdateLightURL(s, p, url);
            h in r.timers && r.timers[h] == p <==> h == s.nextHandle
    ensures stale !in UpdateLightURL(s, p, url).timers
  {
    assert OwnsTimer(s.lights, s.timers, p);
    UpdateLightURLPreservesValid(s, p, url);
    AtMostOneInterval(UpdateLightURL(s, p, url), p, h);
  }

  /** After an url change the cleared handle is inert: its tick requests nothing. */
  lemma StaleTimerIsInert(s: State, p: nat, url: string, stale: nat)
    requires Valid(s) && p < |s.lights| && s.lights[p].interval == Some(stale)
    ensures var r := UpdateLightURL(s, p, url);
            Tick(r, stale) == r
  {
    assert OwnsTimer(s.lights, s.timers, p);
  }

  /** The console entry point `updateURL(position, url)`; the position must
      name an existing light. */
  function ConsoleUpdateURL(s: State, position: nat, url: string): (r: State)
    requires position < |s.lights|
    ensures |r.lights| == |s.lights|
    ensures r.lights[position].url == url
    ensures r.lights[position].timesChecked == s.lights[position].timesChecked
    ensures r.inFlight == s.inFlight + multiset{position}
  {
    UpdateLightURL(s, position, url)
  }

  // ---------------------------------------------------------------------
  // A completed check

  /** The `done`/`fail` handler of `checkURL` for light `p`: store the
      outcome, render with the counter as it was, then count the check. */
  function Complete(s: State, p: nat, ok: bool): (r: State)
    requires Valid(s)
    requires p in s.inFlight
    ensures |r.lights| == |s.lights|
    ensures r.lights[p].timesChecked == s.lights[p].timesChecked + 1
    ensures r.lights[p].status == Outcome(ok)
    ensures r.lights[p].url == s.lights[p].url
    ensures r.lights[p].position == s.lights[p].position
    ensures r.lights[p].interval == s.lights[p].interval
    ensures forall i :: 0 <= i < |s.lights| && i != p ==> r.lights[i] == s.lights[i]
    ensures r.timers == s.timers && r.nextHandle == s.nextHandle
    ensures r.inFlight == s.inFlight - multiset{p}
    ensures s.lights[p].timesChecked == 0 ==>
              && |r.display| == |s.display| + 1
              && r.display[..|s.display|] == s.display
              && r.display[|s.display|] == Slot(p, Item(Outcome(ok), Truncate(s.lights[p].url)))
              && Positions(r.display) == Positions(s.display) + [p]
    ensures s.lights[p].timesChecked > 0 ==>
              && Positions(r.display) == Positions(s.display)
              && (forall k :: 0 <= k < |s.display| && s.display[k].position != p ==>
                    r.display[k] == s.display[k])
              && (forall k :: 0 <= k < |s.display| && s.display[k].position == p ==>
                    r.display[k].item == Item(Outcome(ok), Truncate(s.lights[p].url)))
  {
    var l := s.lights[p];
    var stored := s.lights[p := l.(status := Outcome(ok))];
    s.(
      lights := stored[p := stored[p].(timesChecked := l.timesChecked + 1)],
      display := Render(s.display, stored, p, l.timesChecked, l.url),
      inFlight := s.inFlight - multiset{p})
  }

  lemma CompletePreservesValid(s: State, p: nat, ok: bool)
    requires Valid(s) && p in s.inFlight
    ensures Valid(Complete(s, p, ok))
  {
    var r := Complete(s, p, ok);
    TimersFrame(s.lights, r.lights, r.timers, r.nextHandle);
  }
}
