/**
 Concrete sessions of the page, worked through the model: adding a url and
 seeing its first answer, adding two urls, and changing a light's url from
 the console.
 */
module Scenarios {
  import opened Lights
  import opened View
  import opened Monitor

  const Example: string := "https://example.com"
  const NewExample: string := "https://new.example.com"

  /** Adding a url numbers it 0 and requests one check at once; a successful
      answer creates its row with the full url and counts one check. */
  lemma AddThenSucceed()
    ensures var s1 := AddTrafficLight(Init, Example);
            && Valid(s1)
            && s1.lights[0].position == 0
            && s1.inFlight == multiset{0}
            && var s2 := Complete(s1, 0, true);
               && s2.lights[0].status == Ok
               && s2.lights[0].timesChecked == 1
               && s2.display == [Slot(0, Item(Ok, Example))]
  {
    InitValid();
    AddTrafficLightPreservesValid(Init, Example);
  }

  /** Two urls added in turn get positions 0 and 1, each with a timer of its own. */
  lemma TwoLights()
    ensures var s := AddTrafficLight(AddTrafficLight(Init, Example), NewExample);
            && |s.lights| == 2
            && s.lights[0].position == 0 && s.lights[1].position == 1
            && s.timers == map[0 := 0, 1 := 1]
  {
  }

  /** Changing light 0's url clears its first timer, starts a new one and
      requests a fresh check; the counter carries on. */
  lemma ConsoleChangesUrl()
    ensures var s1 := AddTrafficLight(Init, Example);
            var s2 := ConsoleUpdateURL(s1, 0, NewExample);
            && s2.lights[0].url == NewExample
            && s2.timers == map[1 := 0]
            && s2.inFlight == multiset{0, 0}
            && s2.lights[0].timesChecked == 0
  {
  }
}
