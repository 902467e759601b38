/**
  The input filters of src/idirectfb.c: a local event buffer gets input only
  while the session has the focus, a global one gets everything, with a mark on
  what arrived without the focus.
 */
module InputFilter {

  datatype InputKind = BUTTONPRESS | KEYPRESS(showsCursor: bool) | OTHER_INPUT

  datatype Event =
    | Input(kind: InputKind, isGlobal: bool)  // class DFEC_INPUT; isGlobal is the flag DIEF_GLOBAL
    | Foreign(id: nat)                        // any other class

  function LocalDrops(focused: bool, appFocus: bool, e: Event): bool {
    e.Input? && !focused && !appFocus
  }

  function GlobalResult(focused: bool, appFocus: bool, e: Event): Event {
    if e.Input? && !focused && !appFocus then e.(isGlobal := true) else e
  }

  /** A step of a session as the filters see it. */
  datatype Step = Arrives(event: Event) | SetsFocus(focused: bool) | SetsAppFocus(focused: bool)

  /** The events a buffer with the local filter keeps. */
  function LocalStream(focused: bool, appFocus: bool, steps: seq<Step>): seq<Event>
    decreases steps
  {
    if steps == [] then []
    else match steps[0]
         case Arrives(e) =>
           (if LocalDrops(focused, appFocus, e) then [] else [e]) + LocalStream(focused, appFocus, steps[1..])
         case SetsFocus(f) => LocalStream(f, appFocus, steps[1..])
         case SetsAppFocus(f) => LocalStream(focused, f, steps[1..])
  }

  /** The events a buffer with the global filter keeps. */
  function GlobalStream(focused: bool, appFocus: bool, steps: seq<Step>): seq<Event>
    decreases steps
  {
    if steps == [] then []
    else match steps[0]
         case Arrives(e) => [GlobalResult(focused, appFocus, e)] + GlobalStream(focused, appFocus, steps[1..])
         case SetsFocus(f) => GlobalStream(f, appFocus, steps[1..])
         case SetsAppFocus(f) => GlobalStream(focused, f, steps[1..])
  }

  function Arrivals(steps: seq<Step>): seq<Event> {
    if steps == [] then []
    else (if steps[0].Arrives? then [steps[0].event] else []) + Arrivals(steps[1..])
  }

  predicate Marked(e: Event) {
    e.Input? && e.isGlobal
  }

  function Unmarked(events: seq<Event>): seq<Event> {
    if events == [] then [] else (if Marked(events[0]) then [] else [events[0]]) + Unmarked(events[1..])
  }

  /** How many events arrive with the mark already set while there is focus. */
  function MarkedWithFocus(focused: bool, appFocus: bool, steps: seq<Step>): nat
    decreases steps
  {
    if steps == [] then 0
    else match steps[0]
         case Arrives(e) =>
           (if Marked(e) && (focused || appFocus) then 1 else 0) + MarkedWithFocus(focused, appFocus, steps[1..])
         case SetsFocus(f) => MarkedWithFocus(f, appFocus, steps[1..])
         case SetsAppFocus(f) => MarkedWithFocus(focused, f, steps[1..])
  }

  lemma {:induction false} StreamLengths(focused: bool, appFocus: bool, steps: seq<Step>)
    ensures |LocalStream(focused, appFocus, steps)| ==
      |Unmarked(GlobalStream(focused, appFocus, steps))| + MarkedWithFocus(focused, appFocus, steps)
    ensures MarkedWithFocus(focused, appFocus, steps) == 0 ==>
      LocalStream(focused, appFocus, steps) == Unmarked(GlobalStream(focused, appFocus, steps))
    ensures |GlobalStream(focused, appFocus, steps)| == |Arrivals(steps)|
    decreases steps
  {
    if steps != [] {
      var f := if steps[0].SetsFocus? then steps[0].focused else focused;
      var a := if steps[0].SetsAppFocus? then steps[0].focused else appFocus;
      StreamLengths(f, a, steps[1..]);
    }
  }

  /**
    Over every run of focus changes and events, the local stream is the global
    one without the marked events, exactly when no event comes in marked while
    there is focus; and the global filter drops nothing.
   */
  lemma LocalIsGlobalUnmarked(focused: bool, appFocus: bool, steps: seq<Step>)
    ensures LocalStream(focused, appFocus, steps) == Unmarked(GlobalStream(focused, appFocus, steps))
      <==> MarkedWithFocus(focused, appFocus, steps) == 0
    ensures |GlobalStream(focused, appFocus, steps)| == |Arrivals(steps)|
  {
    StreamLengths(focused, appFocus, steps);
  }

  /** An event that comes in marked while there is focus: kept by both filters, but marked. */
  lemma MarkedEventBreaksIt()
    ensures
      var steps := [Arrives(Input(OTHER_INPUT, true))];
      LocalStream(true, false, steps) == [Input(OTHER_INPUT, true)] && Unmarked(GlobalStream(true, false, steps)) == []
  {
    assert [Arrives(Input(OTHER_INPUT, true))][1..] == [];
  }
}
