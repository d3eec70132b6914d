# Traffic-light server status monitor — a Dafny model

The monitor is a browser page that polls a list of urls and shows one
red/green "traffic light" per url. Under its jQuery and DOM glue (all in
`js/script.js`) is a small state machine, modelled here as pure transitions
on immutable data:

- **Light registry** (`Lights`, `Registry`): an append-only sequence of
  `TrafficLight` records (`url`, `position`, `timesChecked`, `status`, stored
  timer handle). `addTrafficLight` numbers each new light by the registry's
  length. A completed check stores the outcome and bumps the counter.
  `updateURL` swaps the url and restarts the light's single repeating timer.
- **Timers and requests** (`Monitor`): the active `setInterval` timers are a
  map from handle to the position whose check they repeat. Fresh handles come
  from a counter. A requested check is the light's position added to a
  multiset of outstanding requests, and the network answers it later with an
  ok/failed completion event.
- **Display** (`View`): an ordered list of wrapper slots keyed by position.
  The first render of a light (counter still 0) appends a wrapper. Later
  renders rebuild only the item inside the existing wrapper, so rows never
  move. The status shown is read from the registry at render time.
- **Url truncation** (`Truncation`): urls longer than 26 characters are shown
  as their first 23 characters followed by `...`.
- **Sessions** (`Session`): a run of events (add, timer tick, completion,
  console url change). The invariant `Monitor.Valid` holds after every run.
  Lemmas relate a run's outcome to its events: how far the counters advance,
  how much the registry grows, and in what order rows appear.

`Monitor.Valid` bundles the invariants the page keeps:
- every light's position equals its index;
- every light has exactly one live timer, the one it stores;
- only existing lights have checks outstanding;
- a light is `Unchecked` exactly while its counter is 0;
- the display has one wrapper per light checked at least once, and each
  wrapper shows that light's current status.

Rows do not appear in position order. They appear in the order in which each
light's first check completed (`Session.RunDisplayOrderFromEvents`), because answers
arrive asynchronously.

Behaviour of the code that the model keeps:
- The render issued by a completion reads the counter before the increment.
  So the first completed check of a light renders with `timesChecked == 0`
  and every later one with a positive counter.
- `updateURL` does not reset `timesChecked`.
- A completion renders the light's url as it is when the answer arrives. An
  answer to a request sent before an url change is therefore shown with the
  new url.
- `clearInterval` of a light that has no timer yet is a no-op.
- A render with a positive counter for a position that has no wrapper
  changes nothing, because jQuery appends to an empty selection. No
  reachable state does this.

The code stores `undefined`, `200` and `"error"` as the status; `Status`
names these three values `Unchecked`, `Ok` and `Error`.

## Model

| member | source | states |
|---|---|---|
| Truncation.Truncate | js/script.js:90-92 | the shown url is never longer than 26 characters; a url of at most 26 is shown unchanged; a longer one becomes exactly 26: its first 23 characters then "..." |
| Truncation.TruncateKeepsExactlyShortUrls | js/script.js:90-92 | a url is shown verbatim if and only if it has at most 26 characters |
| Truncation.TruncateIdempotent | js/script.js:90-92 | shortening an already shortened url changes nothing |
| Truncation.TruncateForgetsTail | js/script.js:90-92 | two long urls look the same on screen exactly when their first 23 characters agree |
| Lights.NewLight | js/script.js:8-12 | a new light holds the given url and position, has counter 0, no status yet and no timer |
| Lights.Outcome | js/script.js:21-30 | a completed check stores a status that is never Unchecked: Ok exactly on success, Error on failure |
| Registry.Append | js/script.js:60-62 | the registry grows by one and keeps existing lights unchanged; the new light gets the prior length as its position, counter 0 and no status; position-equals-index is preserved |
| View.ItemFor | js/script.js:88-92 | the item rendered shows the status read from the registry at that position, not a passed value, and the truncated url of at most 26 characters |
| View.ReplaceItem | js/script.js:87-94 | rebuilding an item keeps every wrapper and its order; only the wrapper for the rendered position gets the new item |
| View.Render | js/script.js:86-98 | counter 0 appends one wrapper for the position at the end and leaves earlier rows as they were; a positive counter keeps the wrapper positions and every other row unchanged; every wrapper for the position shows the registry's status and the truncated url; wrapper positions stay distinct |
| View.UpdatesKeepOrder | js/script.js:82-83 | any number of update renders leaves the wrapper order unchanged |
| Monitor.InitValid | js/script.js:58-59 | the empty page satisfies the monitor invariant |
| Monitor.AtMostOneInterval | js/script.js:37-51 | under the invariant, a handle is live and runs light p exactly when it is the handle light p stores, so no light has two live timers |
| Monitor.CheckURL | js/script.js:19-20 | issuing a check adds one outstanding request for that light and changes nothing else |
| Monitor.StartInterval | js/script.js:37-40 | one immediate check is requested; one fresh handle becomes live for the light and is stored on it; all other timers, lights and the display are untouched |
| Monitor.Tick | js/script.js:39 | a live timer requests one check of the light that owns it; a cleared handle does nothing; registry, timers and display are unchanged |
| Monitor.TickPreservesValid | js/script.js:39 | a timer tick keeps the monitor invariant |
| Monitor.AddTrafficLight | js/script.js:60-64 | the new light is appended at index equal to the prior length with counter 0, status Unchecked and a fresh handle that it stores, that becomes live for it and that is the only timer added, other timers keeping their owners; one check is requested; earlier lights and the display are untouched |
| Monitor.AddTrafficLightPreservesValid | js/script.js:60-64 | adding a light keeps the monitor invariant, including position equals index and one timer per light |
| Monitor.UpdateLightURL | js/script.js:47-51 | the url is replaced while position, counter and status are kept; the old handle is no longer live; a fresh handle runs the light; one check is requested; other lights and the display are untouched |
| Monitor.UpdateLightURLPreservesValid | js/script.js:47-51 | an url change keeps the monitor invariant |
| Monitor.UpdateLightURLLeavesOneTimer | js/script.js:47-51 | after an url change the old handle is gone, and a handle runs the light if and only if it is the new one |
| Monitor.StaleTimerIsInert | js/script.js:49 | after an url change a tick of the cleared handle changes nothing |
| Monitor.ConsoleUpdateURL | js/script.js:130-132 | the console call replaces the url of an existing light, keeps its counter and requests one check |
| Monitor.Complete | js/script.js:19-31 | a completion raises the light's counter by exactly one whether it succeeded or failed; it stores Ok or Error and keeps url, position and timer; other lights, the timers and all other outstanding requests are unchanged; with counter 0 one row for the light is appended at the end showing the outcome and the truncated url; with a positive counter the row order is kept and only the light's own row is rebuilt |
| Monitor.CompletePreservesValid | js/script.js:19-31 | a completion keeps the monitor invariant |
| Session.Next | js/script.js:19-64 | every enabled event keeps the invariant; only an add grows the registry, by one light with counter 0; only a completion for a light advances its counter, by one; only a light's first completion adds a row, at the end |
| Session.Run | js/script.js:19-64 | the monitor invariant holds after any run of enabled events |
| Session.RunGrowsRegistry | js/script.js:60-64 | after a run the registry has grown by exactly the number of adds, and every light is still at the index equal to its position |
| Session.RunCountsCompletions | js/script.js:23-29 | after a run each light's counter is its starting value plus the number of completions for that light |
| Session.RunDisplayOrder | js/script.js:93-97 | after a run the rows are the earlier rows followed by the lights whose first check completed, in the order of those completions |
| Session.RunDisplayOrderFromEvents | js/script.js:93-97 | after a run the rows are the earlier rows followed, in arrival order, by each light whose first answer arrives during the run and that had no row before, each light once; this order is read from the events alone |
| Session.FirstCompletionsFromEvents | js/script.js:23-29 | the lights whose completion saw a zero counter are exactly the first answers per unchecked light in the event sequence, in order |
| Session.CheckedStep | js/script.js:23-29 | an event adds the answered light to the set of checked lights and nothing else; a completion is a light's first exactly when that light was not checked before |
| Session.RunKeepsRows | js/script.js:82-83 | rows already on screen keep their place for the rest of a run |
| Scenarios.AddThenSucceed | js/script.js:19-64 | adding a url numbers it 0 and requests one check; a successful answer shows a single row with status Ok and the full url, and the counter becomes 1 |
| Scenarios.TwoLights | js/script.js:60-64 | two urls added in turn get positions 0 and 1, each with its own timer |
| Scenarios.ConsoleChangesUrl | js/script.js:47-51 | a console url change clears the first timer, starts a new one, requests a second check and keeps the counter |

## Left out

- The HTTP transport (`$.get`) is left out because it is a foreign call with a nondeterministic outcome. Its answer is the `CheckCompleted(position, ok)` event, and the model does not record which url a request was sent to.
- Timer periods (10000 ms) and event-loop scheduling are not modelled. Only which handles are live matters, and a tick is the `TimerFired(handle)` event.
- HTML templating, the CSS classes `red-<status>`/`green-<status>` and jQuery selectors are left out. The display is a sequence of (position, item) slots.
- `handlers.addTrafficLight` (it also clears the input box) and `handlers.displayTrafficLight` are pure UI forwarding. The model calls `AddTrafficLight` and `Render` directly.
- Strings are sequences of characters. The UTF-16 code-unit semantics of `length` and `slice` are not modelled.
- View.Render: requires that wrapper positions are distinct and that no wrapper exists yet when the counter is 0. Element ids are unique in a document. `Monitor.Valid` proves that every completion meets both conditions. The malformed-document behaviour outside them is not modelled.
- Monitor.Complete: requires the monitor invariant and an outstanding request for the light. An answer only arrives for a check that was issued.
- Monitor.ConsoleUpdateURL: requires an existing position. The code does not guard the index and throws on a missing light.
- Monitor.ConsoleUpdateURL: states less than `Monitor.UpdateLightURL`, to which it forwards.
