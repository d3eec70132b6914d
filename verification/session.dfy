/**
 A session of the page as a sequence of events: the user adds a url, a
 repeating timer fires, the network answers an outstanding check, or the
 console changes a light's url. Run folds the transitions of the monitor
 over such a sequence; the lemmas here relate a whole session's outcome to
 its events.
 */
module Session {
  import opened Lights
  import opened View
  import opened Monitor

  datatype Event =
    | AddLight(url: string)
    | TimerFired(handle: nat)
    | CheckCompleted(position: nat, ok: bool)
    | ConsoleUpdate(position: nat, newUrl: string)

  /** The network only answers checks that were requested, and the console
      call needs an existing light. */
  predicate Enabled(s: State, e: Event) {
    match e
    case AddLight(_) => true
    case TimerFired(_) => true
    case CheckCompleted(p, _) => p in s.inFlight
    case ConsoleUpdate(p, _) => p < |s.lights|
  }

  predicate CompletesAt(e: Event, p: nat) {
    e.CheckCompleted? && e.position == p
  }

  /** `e` answers the first check of its light: the counter is still zero. */
  predicate IsFirstCheck(s: State, e: Event) {
    e.CheckCompleted? && e.position < |s.lights| && s.lights[e.position].timesChecked == 0
  }

  /** One step of the page. */
  function Next(s: State, e: Event): (r: State)
    requires Valid(s) && Enabled(s, e)
    ensures Valid(r)
    ensures |r.lights| == |s.lights| + (if e.AddLight? then 1 else 0)
    ensures forall i :: 0 <= i < |s.lights| ==>
              r.lights[i].timesChecked == s.lights[i].timesChecked + (if CompletesAt(e, i) then 1 else 0)
    ensures e.AddLight? ==> r.lights[|s.lights|].timesChecked == 0
    ensures IsFirstCheck(s, e) ==> Positions(r.display) == Positions(s.display) + [e.position]
    ensures !IsFirstCheck(s, e) ==> Positions(r.display) == Positions(s.display)
  {
    match e
    case AddLight(url) =>
      AddTrafficLightPreservesValid(s, url);
      AddTrafficLight(s, url)
    case TimerFired(h) =>
      TickPreservesValid(s, h);
      Tick(s, h)
    case CheckCompleted(p, ok) =>
      CompletePreservesValid(s, p, ok);
      Complete(s, p, ok)
    case ConsoleUpdate(p, url) =>
      UpdateLightURLPreservesValid(s, p, url);
      ConsoleUpdateURL(s, p, url)
  }

  /** Every event of `es` is enabled when it happens. */
  ghost predicate Admissible(s: State, es: seq<Event>)
    requires Valid(s)
    decreases |es|
  {
    |es| == 0 || (Enabled(s, es[0]) && Admissible(Next(s, es[0]), es[1..]))
  }

  /** The state after the events `es`; the invariant holds all along. */
  function Run(s: State, es: seq<Event>): (r: State)
    requires Valid(s) && Admissible(s, es)
    ensures Valid(r)
    decreases |es|
  {
    if |es| == 0 then s else Run(Next(s, es[0]), es[1..])
  }

  function Adds(es: seq<Event>): nat {
    if |es| == 0 then 0 else (if es[0].AddLight? then 1 else 0) + Adds(es[1..])
  }

  function Completions(es: seq<Event>, p: nat): nat {
    if |es| == 0 then 0 else (if CompletesAt(es[0], p) then 1 else 0) + Completions(es[1..], p)
  }

  /** The positions whose check completed with the counter still at zero,
      in the order those completions arrived. */
  ghost function FirstCompletions(s: State, es: seq<Event>): seq<nat>
    requires Valid(s) && Admissible(s, es)
    decreases |es|
  {
    if |es| == 0 then []
    else
      var e := es[0];
      (if IsFirstCheck(s, e) then [e.position] else []) + FirstCompletions(Next(s, e), es[1..])
  }

  /** The registry only grows, by one light per add, and every light stays at
      the index equal to its position. */
  lemma {:induction false} RunGrowsRegistry(s: State, es: seq<Event>)
    requires Valid(s) && Admissible(s, es)
    ensures |Run(s, es).lights| == |s.lights| + Adds(es)
    ensures forall i :: 0 <= i < |Run(s, es).lights| ==> Run(s, es).lights[i].position == i
    decreases |es|
  {
    if |es| > 0 {
      RunGrowsRegistry(Next(s, es[0]), es[1..]);
    }
  }

  /** The counter of a light is its count at the start plus one for every
      completed check of that light, whether it succeeded or failed. */
  lemma {:induction false} RunCountsCompletions(s: State, es: seq<Event>, p: nat)
    requires Valid(s) && Admissible(s, es)
    requires p < |s.lights| + Adds(es)
    ensures p < |Run(s, es).lights|
    ensures Run(s, es).lights[p].timesChecked ==
              (if p < |s.lights| then s.lights[p].timesChecked else 0) + Completions(es, p)
    decreases |es|
  {
    if |es| > 0 {
      var s1 := Next(s, es[0]);
      RunCountsCompletions(s1, es[1..], p);
      assert Run(s, es) == Run(s1, es[1..]);
      if CompletesAt(es[0], p) {
        assert p in s.inFlight;
      }
    }
  }

  /** Rows appear in the order in which each light's first check completed,
      and are never moved afterwards. */
  lemma {:induction false} RunDisplayOrder(s: State, es: seq<Event>)
    requires Valid(s) && Admissible(s, es)
    ensures Positions(Run(s, es).display) == Positions(s.display) + FirstCompletions(s, es)
    decreases |es|
  {
    if |es| > 0 {
      var s1 := Next(s, es[0]);
      RunDisplayOrder(s1, es[1..]);
      var head := if IsFirstCheck(s, es[0]) then [es[0].position] else [];
      ConcatAssoc(Positions(s.display), head, Positions(s1.display),
           FirstCompletions(s1, es[1..]), Positions(Run(s1, es[1..]).display));
    }
  }

  lemma ConcatAssoc(before: seq<nat>, head: seq<nat>, after: seq<nat>, rest: seq<nat>, final: seq<nat>)
    requires after == before + head
    requires final == after + rest
    ensures final == before + (head + rest)
  {
  }

  /** The lights whose counter is positive, that is, the ones with a row. */
  ghost function Checked(s: State): set<nat> {
    set p | 0 <= p < |s.lights| && s.lights[p].timesChecked > 0
  }

  /** Read off the events alone: the position of every completion whose light
      is not yet in `seen`, in arrival order, each light at most once. */
  function FirstArrivals(es: seq<Event>, seen: set<nat>): seq<nat>
    decreases |es|
  {
    if |es| == 0 then []
    else if es[0].CheckCompleted? && es[0].position !in seen then
      [es[0].position] + FirstArrivals(es[1..], seen + {es[0].position})
    else
      FirstArrivals(es[1..], seen)
  }

  /** One event adds the answered light to the checked ones, and it is that
      light's first check exactly when the light was not checked before. */
  lemma CheckedStep(s: State, e: Event)
    requires Valid(s) && Enabled(s, e)
    ensures Checked(Next(s, e)) == Checked(s) + (if e.CheckCompleted? then {e.position} else {})
    ensures IsFirstCheck(s, e) <==> e.CheckCompleted? && e.position !in Checked(s)
  {
  }

  /** The order of first completions depends on the events alone, not on
      the intermediate states of the run. */
  lemma {:induction false} FirstCompletionsFromEvents(s: State, es: seq<Event>)
    requires Valid(s) && Admissible(s, es)
    ensures FirstCompletions(s, es) == FirstArrivals(es, Checked(s))
    decreases |es|
  {
    if |es| > 0 {
      var e := es[0];
      var s1 := Next(s, e);
      CheckedStep(s, e);
      FirstCompletionsFromEvents(s1, es[1..]);
      var head := if IsFirstCheck(s, e) then [e.position] else [];
      assert FirstCompletions(s, es) == head + FirstCompletions(s1, es[1..]);
      ArrivalsStep(es, Checked(s), Checked(s1));
    }
  }

  /** One step of `FirstArrivals`, with the seen set grown by the answered light. */
  lemma ArrivalsStep(es: seq<Event>, seen: set<nat>, seen1: set<nat>)
    requires |es| > 0
    requires seen1 == seen + (if es[0].CheckCompleted? then {es[0].position} else {})
    ensures FirstArrivals(es, seen) ==
              (if es[0].CheckCompleted? && es[0].position !in seen then [es[0].position] else [])
              + FirstArrivals(es[1..], seen1)
  {
  }

  /** Rows appear in the order in which the lights' first answers arrive in
      the event sequence, each light once, after the rows already shown. */
  lemma RunDisplayOrderFromEvents(s: State, es: seq<Event>)
    requires Valid(s) && Admissible(s, es)
    ensures Positions(Run(s, es).display) == Positions(s.display) + FirstArrivals(es, Checked(s))
  {
    RunDisplayOrder(s, es);
    FirstCompletionsFromEvents(s, es);
  }

  /** Rows already on screen keep their place for the rest of the session. */
  lemma RunKeepsRows(s: State, es: seq<Event>)
    requires Valid(s) && Admissible(s, es)
    ensures Positions(s.display) <= Positions(Run(s, es).display)
  {
    RunDisplayOrder(s, es);
  }
}
