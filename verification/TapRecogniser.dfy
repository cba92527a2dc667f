/** The client's recogniser of double taps. */
module TapRecogniser {
  import opened Lists

  datatype Kind = DoubleTap | SingleTap

  datatype Tap = Tap(direction: nat, kind: Kind)

  datatype Selection = Single | Double | SingleDouble

  datatype Arrival = Arrival(at: int, tap: Tap)

  /** A tap comes in, or the timer runs out. */
  datatype Event = Tapped(arrival: Arrival) | Timeout

  /** In milliseconds. */
  const WINDOW := 500

  // ---------- Pairing, independent of any state ----------

  /** Inputs that belong together; a pair counts as one double tap. */
  datatype Group = One(tap: Tap) | Two(first: Tap, second: Tap) {
    function Output(): Tap {
      if One? then tap else second.(kind := DoubleTap)
    }

    function Inputs(): seq<Tap> {
      if One? then [tap] else [first, second]
    }
  }

  /** Two taps of one direction with no timeout between them pair up, the earliest first. */
  function Closed(events: seq<Event>): seq<Group> {
    if |events| < 2 then []
    else if events[0].Timeout? then Closed(events[1..])
    else if events[1].Timeout? then [One(events[0].arrival.tap)] + Closed(events[2..])
    else if events[0].arrival.tap.direction == events[1].arrival.tap.direction
    then [Two(events[0].arrival.tap, events[1].arrival.tap)] + Closed(events[2..])
    else [One(events[0].arrival.tap)] + Closed(events[1..])
  }

  /** The tap that still may become part of a pair, if any. */
  function Open(events: seq<Event>): Option<Arrival> {
    if events == [] then None
    else if events[0].Timeout? then Open(events[1..])
    else if |events| == 1 then Some(events[0].arrival)
    else if events[1].Timeout? || events[0].arrival.tap.direction == events[1].arrival.tap.direction
    then Open(events[2..])
    else Open(events[1..])
  }

  function Waiting(open: Option<Arrival>): seq<Tap> {
    if open.Some? then [open.value.tap] else []
  }

  function Taps(events: seq<Event>): seq<Tap> {
    if events == [] then [] else (if events[0].Tapped? then [events[0].arrival.tap] else []) + Taps(events[1..])
  }

  function Inputs(groups: seq<Group>): seq<Tap> {
    if groups == [] then [] else groups[0].Inputs() + Inputs(groups[1..])
  }

  /** Every input is in exactly one group or still open, in order. */
  lemma {:induction false} EveryTapIsGrouped(events: seq<Event>)
    ensures Inputs(Closed(events)) + Waiting(Open(events)) == Taps(events)
    decreases |events|
  {
    if |events| == 1 {
      assert events[1..] == [];
    } else if |events| > 1 {
      var rest := events[1..];
      assert rest[1..] == events[2..] && rest[0] == events[1];
      if events[0].Timeout? ||
         (rest[0].Tapped? && events[0].arrival.tap.direction != rest[0].arrival.tap.direction) {
        EveryTapIsGrouped(rest);
        FirstGroup(events, rest);
      } else {
        EveryTapIsGrouped(events[2..]);
        assert Taps(events) == [events[0].arrival.tap] + Taps(rest);
        FirstGroup(events, events[2..]);
      }
    }
  }

  lemma {:induction false} FirstGroup(events: seq<Event>, rest: seq<Event>)
    ensures Closed(events) != [] && Closed(events)[1..] == Closed(rest) ==>
              Inputs(Closed(events)) + Waiting(Open(rest))
              == Closed(events)[0].Inputs() + (Inputs(Closed(rest)) + Waiting(Open(rest)))
  {
    if Closed(events) != [] {
      Regroup(Closed(events)[0].Inputs(), Inputs(Closed(events)[1..]), Waiting(Open(rest)));
    }
  }

  /** Greedy merging of taps of one direction that come within the window. */
  function Merged(arrivals: seq<Arrival>): seq<Tap> {
    if arrivals == [] then []
    else if |arrivals| > 1 && arrivals[1].at - arrivals[0].at < WINDOW
            && arrivals[0].tap.direction == arrivals[1].tap.direction
    then [arrivals[1].tap.(kind := DoubleTap)] + Merged(arrivals[2..])
    else [arrivals[0].tap] + Merged(arrivals[1..])
  }

  // ---------- What pairing means ----------

  /** A pair is two taps of one direction and comes out as a double tap of that direction; other taps come out as is. */
  lemma {:induction false} PairsAreAlike(events: seq<Event>)
    ensures forall g :: g in Closed(events) ==>
                          if g.Two? then g.first.direction == g.second.direction == g.Output().direction
                                         && g.Output().kind == DoubleTap
                          else g.Output() == g.tap
    decreases |events|
  {
    if |events| >= 2 {
      PairsAreAlike(events[1..]);
      PairsAreAlike(events[2..]);
    }
  }

  /** Taps of one direction with no timeout between them pair up two by two. */
  lemma {:induction false} RowsPairUp(events: seq<Event>, direction: nat)
    requires forall e :: e in events ==> e.Tapped? && e.arrival.tap.direction == direction
    ensures |Closed(events)| == |events| / 2 && forall g :: g in Closed(events) ==> g.Two?
    ensures Open(events).Some? <==> |events| % 2 == 1
    decreases |events|
  {
    assert events != [] ==> events[0] in events;
    if |events| >= 2 {
      assert events[1] in events;
      RowsPairUp(events[2..], direction);
    }
  }

  /** No tap is followed directly by another of its direction. */
  ghost predicate Strangers(events: seq<Event>) {
    |events| >= 2 ==>
      && Strangers(events[1..])
      && (events[0].Tapped? && events[1].Tapped? ==>
            events[0].arrival.tap.direction != events[1].arrival.tap.direction)
  }

  /** Then there is no pair. */
  lemma {:induction false} StrangersStayAlone(events: seq<Event>)
    requires Strangers(events)
    ensures forall g :: g in Closed(events) ==> g.One?
    decreases |events|
  {
    if |events| >= 2 {
      assert events[1..][1..] == events[2..];
      StrangersStayAlone(events[1..]);
      StrangersStayAlone(events[2..]);
    }
  }

  ghost predicate Apart(arrivals: seq<Arrival>) {
    forall i :: 0 <= i < |arrivals| - 1 ==> arrivals[i + 1].at - arrivals[i].at >= 500
  }

  /** Taps half a second or more apart are never merged. */
  lemma {:induction false} SlowTapsStayApart(arrivals: seq<Arrival>)
    requires Apart(arrivals)
    ensures |Merged(arrivals)| == |arrivals|
    ensures forall i :: 0 <= i < |arrivals| ==> Merged(arrivals)[i] == arrivals[i].tap
  {
    if arrivals != [] {
      assert |arrivals| > 1 ==> arrivals[0 + 1].at - arrivals[0].at >= 500;
      forall i | 0 <= i < |arrivals| - 2
        ensures arrivals[1..][i + 1].at - arrivals[1..][i].at >= 500
      {
        assert arrivals[1..][i] == arrivals[i + 1] && arrivals[1..][i + 1] == arrivals[i + 1 + 1];
      }
      SlowTapsStayApart(arrivals[1..]);
    }
  }

  ghost predicate Quick(arrivals: seq<Arrival>, direction: nat) {
    (forall a :: a in arrivals ==> a.tap.direction == direction) &&
    forall i :: 0 <= i < |arrivals| - 1 ==> arrivals[i + 1].at - arrivals[i].at < 500
  }

  /** Taps of one direction that follow each other faster are merged two by two. */
  lemma {:induction false} QuickTapsMerge(arrivals: seq<Arrival>, direction: nat)
    requires Quick(arrivals, direction)
    ensures |Merged(arrivals)| == (|arrivals| + 1) / 2
    ensures forall i :: 0 <= i < |arrivals| / 2 ==> Merged(arrivals)[i] == Tap(direction, DoubleTap)
    ensures |arrivals| % 2 == 1 ==> Merged(arrivals)[|arrivals| / 2] == arrivals[|arrivals| - 1].tap
    decreases |arrivals|
  {
    if |arrivals| >= 2 {
      assert arrivals[0 + 1].at - arrivals[0].at < 500;
      forall i | 0 <= i < |arrivals| - 3
        ensures arrivals[2..][i + 1].at - arrivals[2..][i].at < 500
      {
        assert arrivals[2..][i] == arrivals[i + 2] && arrivals[2..][i + 1] == arrivals[i + 2 + 1];
      }
      QuickTapsMerge(arrivals[2..], direction);
    }
  }

  // ---------- The recogniser ----------

  datatype Recogniser = Recogniser(selection: Selection, pending: seq<Tap>, timer: Option<int>, out: seq<Tap>) {
    /** The timer runs, up to the time given, for one pending tap. */
    predicate Valid() {
      |pending| == if timer.Some? && selection != Single then 1 else 0
    }

    /** What every event needs: there is a tap to decide on. */
    predicate Ready() {
      timer.Some? && selection != Single ==> pending != []
    }

    function Decided(): Recogniser
      requires selection != Single ==> pending != []
    {
      if selection == Single then this else
        var (last, rest) := (pending[|pending| - 1], pending[..|pending| - 1]);
        if selection == Double && last.kind == SingleTap then if rest == [] then this.(pending := rest) else this
        else this.(pending := rest, out := out + [last])
    }

    function Step(event: Event): Recogniser
      requires Ready()
    {
      match event
      case Timeout => if timer.Some? then this.(timer := None).Decided() else this
      case Tapped(Arrival(at, tap)) =>
        if selection == Single then this.(out := out + [tap])
        else if timer.None? then this.(pending := [tap] + pending, timer := Some(at + WINDOW))
        else if pending[0].direction == tap.direction
        then this.(pending := [tap.(kind := DoubleTap)] + pending[1..], timer := None).Decided()
        else
          var decided := Decided();
          decided.(pending := [tap] + decided.pending, timer := Some(at + WINDOW))
    }

    function Select(chosen: Selection): Recogniser {
      this.(pending := [], selection := chosen)
    }
  }

  lemma StepKeepsValid(r: Recogniser, event: Event)
    requires r.Valid()
    ensures r.Step(event).Valid() && r.Step(event).selection == r.selection
  {
  }

  function Run(r: Recogniser, events: seq<Event>): Recogniser
    requires r.Valid()
    decreases |events|
  {
    StepsKeepValid(r);
    if events == [] then r else Run(r.Step(events[0]), events[1..])
  }

  lemma StepsKeepValid(r: Recogniser)
    requires r.Valid()
    ensures forall event :: r.Step(event).Valid()
  {
    forall event ensures r.Step(event).Valid() {
      StepKeepsValid(r, event);
    }
  }

  /** The taps that a selection lets through. */
  function Emitted(selection: Selection, groups: seq<Group>): seq<Tap> {
    if groups == [] then []
    else if selection == Double && groups[0].Output().kind == SingleTap then Emitted(selection, groups[1..])
    else [groups[0].Output()] + Emitted(selection, groups[1..])
  }

  function Outputs(groups: seq<Group>): seq<Tap> {
    if groups == [] then [] else [groups[0].Output()] + Outputs(groups[1..])
  }

  function Twos(groups: seq<Group>): seq<Group> {
    if groups == [] then [] else (if groups[0].Two? then [groups[0]] else []) + Twos(groups[1..])
  }

  /** If only double taps are selected, one comes out for each pair and nothing else; otherwise one for each group. */
  lemma {:induction false} EmittedIs(selection: Selection, groups: seq<Group>)
    requires forall g :: g in groups ==> g.One? ==> g.tap.kind == SingleTap
    ensures Emitted(selection, groups) == Outputs(if selection == Double then Twos(groups) else groups)
  {
    if groups != [] {
      EmittedIs(selection, groups[1..]);
      assert groups[0] in groups;
      var rest := Twos(groups[1..]);
      assert [] + rest == rest && ([groups[0]] + rest)[1..] == rest;
    }
  }

  /** The pending tap, with the time at which the timer was started for it. */
  function Pending(r: Recogniser): seq<Arrival>
    requires r.Valid()
  {
    if r.pending == [] then [] else [Arrival(r.timer.value - WINDOW, r.pending[0])]
  }

  function AsEvents(arrivals: seq<Arrival>): seq<Event> {
    seq(|arrivals|, i requires 0 <= i < |arrivals| => Tapped(arrivals[i]))
  }

  /** A recogniser that has emitted `out` and waits for a partner of `open`. */
  function Resting(selection: Selection, open: Option<Arrival>, out: seq<Tap>): Recogniser {
    Recogniser(selection, Waiting(open), if open.Some? then Some(open.value.at + WINDOW) else None, out)
  }

  /** From any valid state, exactly the closed groups are emitted, and the timer runs for the open tap since it came. */
  lemma {:induction false} RunPairs(r: Recogniser, events: seq<Event>)
    requires r.Valid() && r.selection != Single
    ensures var all := AsEvents(Pending(r)) + events;
      Run(r, events) == Resting(r.selection, Open(all), r.out + Emitted(r.selection, Closed(all)))
    decreases |events|
  {
    if events == [] {
      assert AsEvents(Pending(r)) + events == AsEvents(Pending(r));
    } else {
      var next := r.Step(events[0]);
      StepKeepsValid(r, events[0]);
      RunPairs(next, events[1..]);
      assert Run(r, events) == Run(next, events[1..]);
      FirstPairs(r, events);
    }
  }

  /** The group that an event closes when `p` is open, and what is open then. */
  function Grouped(p: Arrival, event: Event): (Group, Option<Arrival>) {
    match event
    case Timeout => (One(p.tap), None)
    case Tapped(a) => if a.tap.direction == p.tap.direction then (Two(p.tap, a.tap), None) else (One(p.tap), Some(a))
  }

  lemma StepEffect(r: Recogniser, event: Event)
    requires r.Valid() && r.selection != Single
    ensures r.Step(event) ==
            if r.pending == [] then
              if event.Timeout? then r else Resting(r.selection, Some(event.arrival), r.out)
            else
              var (group, open) := Grouped(Pending(r)[0], event);
              Resting(r.selection, open, r.out + Emitted(r.selection, [group]))
  {
    if r.pending != [] {
      var group := Grouped(Pending(r)[0], event).0;
      assert [group][1..] == [];
    }
  }

  lemma GroupsStep(p: Arrival, events: seq<Event>)
    requires events != []
    ensures var (group, open) := Grouped(p, events[0]);
      var rest := if open.Some? then events else events[1..];
      Closed([Tapped(p)] + events) == [group] + Closed(rest) && Open([Tapped(p)] + events) == Open(rest)
  {
    var all := [Tapped(p)] + events;
    assert all[1..] == events && all[2..] == events[1..];
  }

  lemma EmittedFirst(selection: Selection, group: Group, groups: seq<Group>, out: seq<Tap>)
    ensures out + Emitted(selection, [group]) + Emitted(selection, groups) == out + Emitted(selection, [group] + groups)
  {
    assert [group][1..] == [] && ([group] + groups)[1..] == groups;
    Regroup(out, Emitted(selection, [group]), Emitted(selection, groups));
  }

  /** What one step emits and leaves pending is what grouping does with the pending tap and the event. */
  lemma FirstPairs(r: Recogniser, events: seq<Event>)
    requires r.Valid() && r.selection != Single && events != []
    ensures var (all, next) := (AsEvents(Pending(r)) + events, r.Step(events[0]));
      next.Valid() && next.selection == r.selection &&
      Open(AsEvents(Pending(next)) + events[1..]) == Open(all) &&
      next.out + Emitted(r.selection, Closed(AsEvents(Pending(next)) + events[1..]))
      == r.out + Emitted(r.selection, Closed(all))
  {
    StepEffect(r, events[0]);
    if r.pending == [] {
      assert AsEvents(Pending(r)) + events == events;
      if events[0].Timeout? {
        assert AsEvents(Pending(r)) + events[1..] == events[1..];
      } else {
        RestingEvents(r.selection, Some(events[0].arrival), r.out, events[1..]);
        assert [events[0]] + events[1..] == events;
      }
    } else {
      var p := Pending(r)[0];
      var (group, open) := Grouped(p, events[0]);
      var rest := if open.Some? then events else events[1..];
      assert AsEvents(Pending(r)) == [Tapped(p)];
      GroupsStep(p, events);
      RestingEvents(r.selection, open, r.out + Emitted(r.selection, [group]), events[1..]);
      assert [events[0]] + events[1..] == events;
      EmittedFirst(r.selection, group, Closed(rest), r.out);
    }
  }

  lemma RestingEvents(selection: Selection, open: Option<Arrival>, out: seq<Tap>, rest: seq<Event>)
    requires selection != Single
    ensures var r := Resting(selection, open, out);
      r.Valid() && r.out == out &&
      AsEvents(Pending(r)) + rest == if open.Some? then [Tapped(open.value)] + rest else rest
  {
    var r := Resting(selection, open, out);
    assert AsEvents(Pending(r)) == if open.Some? then [Tapped(open.value)] else [];
  }

  lemma {:induction false} RunSingle(r: Recogniser, events: seq<Event>)
    requires r.Valid() && r.selection == Single
    ensures Run(r, events).out == r.out + Taps(events) && Run(r, events).pending == []
    decreases |events|
  {
    if events != [] {
      StepKeepsValid(r, events[0]);
      RunSingle(r.Step(events[0]), events[1..]);
    }
  }

  // ---------- With a timer that keeps its time ----------

  /** A timer that is due fires before the next tap is looked at. */
  function Arrive(r: Recogniser, a: Arrival): Recogniser
    requires r.Valid()
  {
    StepsKeepValid(r);
    (if r.timer.Some? && a.at >= r.timer.value then r.Step(Timeout) else r).Step(Tapped(a))
  }

  function TimedRun(r: Recogniser, arrivals: seq<Arrival>): Recogniser
    requires r.Valid()
    decreases |arrivals|
  {
    if arrivals == [] then r else
      StepsKeepValid(r);
      StepsKeepValid(if r.timer.Some? && arrivals[0].at >= r.timer.value then r.Step(Timeout) else r);
      TimedRun(Arrive(r, arrivals[0]), arrivals[1..])
  }

  /** The taps emitted and the one pending are the greedy merge of all taps by their times. */
  lemma {:induction false} TimedRunMerges(r: Recogniser, arrivals: seq<Arrival>)
    requires r.Valid() && r.selection == SingleDouble
    ensures var end := TimedRun(r, arrivals);
      end.out + end.pending == r.out + Merged(Pending(r) + arrivals) && |end.pending| <= 1
    decreases |arrivals|
  {
    if arrivals == [] {
      assert Pending(r) + arrivals == Pending(r);
    } else {
      TimedRunMerges(Arrive(r, arrivals[0]), arrivals[1..]);
      ArriveMerges(r, arrivals);
    }
  }

  /** The pending tap and the new one pair up when both direction and time allow it. */
  predicate PairsWith(r: Recogniser, a: Arrival)
    requires r.Valid() && r.pending != []
  {
    a.at < r.timer.value && a.tap.direction == r.pending[0].direction
  }

  lemma ArriveEffect(r: Recogniser, a: Arrival)
    requires r.Valid() && r.selection == SingleDouble
    ensures Arrive(r, a) ==
            if r.pending == [] then Resting(SingleDouble, Some(a), r.out)
            else if PairsWith(r, a) then Resting(SingleDouble, None, r.out + [a.tap.(kind := DoubleTap)])
            else Resting(SingleDouble, Some(a), r.out + [r.pending[0]])
  {
  }

  lemma FirstMerged(p: Arrival, arrivals: seq<Arrival>)
    requires arrivals != []
    ensures Merged([p] + arrivals) ==
            if arrivals[0].at < p.at + WINDOW && arrivals[0].tap.direction == p.tap.direction
            then [arrivals[0].tap.(kind := DoubleTap)] + Merged(arrivals[1..]) else [p.tap] + Merged(arrivals)
  {
    var all := [p] + arrivals;
    assert all[1..] == arrivals && all[2..] == arrivals[1..];
  }

  lemma ArriveMerges(r: Recogniser, arrivals: seq<Arrival>)
    requires r.Valid() && r.selection == SingleDouble && arrivals != []
    ensures var next := Arrive(r, arrivals[0]);
      next.Valid() && next.selection == SingleDouble &&
      next.out + Merged(Pending(next) + arrivals[1..]) == r.out + Merged(Pending(r) + arrivals)
  {
    if r.pending == [] {
      ArriveEffect(r, arrivals[0]);
      assert Pending(r) + arrivals == arrivals;
      RestingWaits(Some(arrivals[0]), r.out, arrivals[1..]);
      assert [arrivals[0]] + arrivals[1..] == arrivals;
    } else {
      ArriveBehind(r, Pending(r)[0], arrivals);
    }
  }

  lemma ArriveBehind(r: Recogniser, p: Arrival, arrivals: seq<Arrival>)
    requires r.Valid() && r.selection == SingleDouble && arrivals != [] && Pending(r) == [p]
    ensures var next := Arrive(r, arrivals[0]);
      next.Valid() && next.selection == SingleDouble &&
      next.out + Merged(Pending(next) + arrivals[1..]) == r.out + Merged([p] + arrivals)
  {
    var a := arrivals[0];
    ArriveEffect(r, a);
    NextMerged(r.out, p, arrivals);
    if PairsWith(r, a) {
      RestingWaits(None, r.out + [a.tap.(kind := DoubleTap)], arrivals[1..]);
    } else {
      RestingWaits(Some(a), r.out + [p.tap], arrivals[1..]);
      assert [a] + arrivals[1..] == arrivals;
    }
  }

  /** The first tap behind `out` is merged with the next one or not. */
  lemma NextMerged(out: seq<Tap>, p: Arrival, arrivals: seq<Arrival>)
    requires arrivals != []
    ensures var a := arrivals[0];
      out + Merged([p] + arrivals) ==
      if a.at < p.at + WINDOW && a.tap.direction == p.tap.direction
      then out + [a.tap.(kind := DoubleTap)] + Merged(arrivals[1..]) else out + [p.tap] + Merged(arrivals)
  {
    FirstMerged(p, arrivals);
    Regroup(out, [arrivals[0].tap.(kind := DoubleTap)], Merged(arrivals[1..]));
    Regroup(out, [p.tap], Merged(arrivals));
  }

  lemma RestingWaits(open: Option<Arrival>, out: seq<Tap>, rest: seq<Arrival>)
    ensures var r := Resting(SingleDouble, open, out);
      r.Valid() && r.out == out &&
      Pending(r) + rest == if open.Some? then [open.value] + rest else rest
  {
  }

  // ---------- Selection ----------

  /** A selection leaves a tap to decide on for the next event exactly when no timer runs or none is needed. */
  lemma SelectIsSafeIff(r: Recogniser, chosen: Selection)
    requires r.Valid()
    ensures r.Select(chosen).Ready() <==> r.timer.None? || chosen == Single
    ensures r.Select(chosen).Ready() <==> r.Select(chosen).Valid()
  {
  }

  const START := Recogniser(SingleDouble, [], None, [])

  /** One tap, a selection and one more event: there is nothing to decide on. */
  lemma SelectWhileWaiting(a: Arrival)
    ensures !START.Step(Tapped(a)).Select(Double).Ready()
  {
  }

  /** Taps that are read at one time. */
  function At(now: int, values: seq<Tap>): seq<Event> {
    seq(|values|, i requires 0 <= i < |values| => Tapped(Arrival(now, values[i])))
  }

  class TapSensor {
    var selection: Selection
    var tapValues: seq<Tap>
    var timer: Option<int>     // when the timer runs out, if it is active
    var emitted: seq<Tap>

    function State(): Recogniser
      reads this
    {
      Recogniser(selection, tapValues, timer, emitted)
    }

    constructor ()
      ensures State() == START && State().Valid()
    {
      selection, tapValues, timer, emitted := SingleDouble, [], None, [];
    }

    method Output()
      requires selection != Single ==> tapValues != []
      modifies `tapValues, `emitted
      ensures State() == old(State()).Decided()
    {
      if selection == Double {
        if tapValues[|tapValues| - 1].kind == SingleTap && |tapValues| == 1 {
          tapValues := [];
          return;
        }
        if tapValues[|tapValues| - 1].kind == DoubleTap {
          emitted := emitted + [tapValues[|tapValues| - 1]];
          tapValues := tapValues[..|tapValues| - 1];
        }
      }
      if selection == SingleDouble {
        emitted := emitted + [tapValues[|tapValues| - 1]];
        tapValues := tapValues[..|tapValues| - 1];
      }
    }

    /** Handles the taps that have come in by `now`. */
    method DataReceived(values: seq<Tap>, now: int)
      requires State().Valid()
      modifies this
      ensures State() == Run(old(State()), At(now, values))
      ensures State().Valid()
    {
      ghost var events := At(now, values);
      for i := 0 to |values|
        invariant State().Valid()
        invariant Run(State(), events[i..]) == Run(old(State()), events)
      {
        StepKeepsValid(State(), events[i]);
        assert events[i..][0] == events[i] && events[i..][1..] == events[i + 1..];
        var value := values[i];
        if selection == Single {
          emitted := emitted + [value];
        } else if timer.Some? {
          if tapValues != [] && tapValues[0].direction == value.direction {
            timer := None;
            tapValues := tapValues[1..];
            value := value.(kind := DoubleTap);
            tapValues := [value] + tapValues;
            Output();
          } else {
            Output();
            tapValues := [value] + tapValues;
            timer := Some(now + WINDOW);
          }
        } else {
          tapValues := [value] + tapValues;
          timer := Some(now + WINDOW);
        }
      }
      assert events[|values|..] == [];
    }

    method TimerTimeout()
      requires State().Valid() && timer.Some?
      modifies this
      ensures State() == old(State()).Step(Timeout) && State().Valid()
    {
      timer := None;
      Output();
    }

    method SetTapType(chosen: Selection)
      modifies `tapValues, `selection
      ensures State() == old(State()).Select(chosen)
    {
      tapValues := [];
      selection := chosen;
    }
  }
}
